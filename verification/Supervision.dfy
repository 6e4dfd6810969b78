/** `Options.Run` and what it calls: preparing the disk, starting QEMU with
  * accelerator fallback, supervising the child and shutting it down.
  *
  * A child is an entry of the host's process table with its one-slot `done` channel.
  * A `select` is a nondeterministic choice among the cases that are ready; a timer
  * may fire at the very moment the child has exited. Next to the real state each
  * call keeps a ghost run of the system of `LaunchSystem`, so that whatever `Run`
  * does is a run of that system. */
module Supervision {
  import opened Wrappers
  import opened Faults
  import Disk
  import Lock = LockProtocol
  import Sys = LaunchSystem

  /** `done` holds the exit status between the child's exit and its receipt. */
  datatype Proc = Proc(alive: bool, done: Option<int>, received: nat)

  datatype Event =
    | NotStarted(accel: string)
    | Started(i: nat, accel: string)
    | GracePassed(i: nat)
    | Received(i: nat, status: int)
    | PidWritten(i: nat)
    | PidTorn(i: nat)
    | Interrupted
    | Powerdown
    | TimedOut
    | Terminate(i: nat)
    | Kill(i: nat)
    | PidCleared
    | OverlayDropped

  datatype RunError = PrepareFailed | SetupFailed | BuildFailed | NotStartedAtAll | ExitedEarly | ExitedWithError

  /** How `done` relates to the process: posted once at exit, received at most once. */
  predicate Channel(p: Proc) {
    if p.alive then p.done.None? && p.received == 0
    else (p.done.Some? && p.received == 0) || (p.done.None? && p.received == 1)
  }

  /** The child has exited and its `done` was received, once. */
  predicate Reaped(p: Proc) {
    !p.alive && p.done.None? && p.received == 1
  }

  ghost predicate AllReaped(table: seq<Proc>) {
    forall j :: 0 <= j < |table| ==> Reaped(table[j])
  }

  /* ---------- the shapes of a log ---------- */

  /** The exit status of child `i` was received. */
  predicate Receipt(e: Event, i: nat) {
    e.Received? && e.i == i
  }

  predicate OnlyReceipt(steps: seq<Event>, i: nat) {
    |steps| == 1 && Receipt(steps[0], i)
  }

  /** From the first wait for the child on. */
  predicate WaitShape(tail: seq<Event>, i: nat) {
    && tail != [] && Receipt(tail[|tail| - 1], i)
    && var before := tail[..|tail| - 1];
       || before == []
       || before == [TimedOut, Terminate(i)]
       || before == [TimedOut, Terminate(i), TimedOut, Kill(i)]
  }

  lemma WaitAfterTimeout(tail: seq<Event>, i: nat)
    requires tail != [] && Receipt(tail[|tail| - 1], i)
    requires tail[..|tail| - 1] == [] || tail[..|tail| - 1] == [TimedOut, Kill(i)]
    ensures WaitShape([TimedOut, Terminate(i)] + tail, i)
  {
    var all := [TimedOut, Terminate(i)] + tail;
    assert all[..|all| - 1] == [TimedOut, Terminate(i)] + tail[..|tail| - 1];
  }

  /** From the request to the receipt of `done`; each step after the first comes only
    * after a timeout. */
  predicate ShutdownShape(steps: seq<Event>, i: nat, qmp: bool) {
    if qmp then steps != [] && steps[0] == Powerdown && WaitShape(steps[1..], i) else WaitShape(steps, i)
  }

  predicate SuperviseShape(steps: seq<Event>, i: nat, qmp: bool) {
    || OnlyReceipt(steps, i)
    || (steps != [] && steps[0] == Interrupted && ShutdownShape(steps[1..], i, qmp))
  }

  /** What trying one candidate in vain leaves in the log. */
  predicate TriedInVain(steps: seq<Event>, accel: string) {
    || steps == [NotStarted(accel)]
    || (|steps| == 2 && steps[0].Started? && steps[0].accel == accel && Receipt(steps[1], steps[0].i))
  }

  /** Each of `accels` in turn was tried in vain. */
  predicate AllInVain(steps: seq<Event>, accels: seq<string>)
    decreases |accels|
  {
    if accels == [] then steps == []
    else
      || (|steps| >= 1 && TriedInVain(steps[..1], accels[0]) && AllInVain(steps[1..], accels[1..]))
      || (|steps| >= 2 && TriedInVain(steps[..2], accels[0]) && AllInVain(steps[2..], accels[1..]))
  }

  lemma {:induction false} OneMoreInVain(steps: seq<Event>, accels: seq<string>, more: seq<Event>, accel: string)
    requires AllInVain(steps, accels) && TriedInVain(more, accel)
    ensures AllInVain(steps + more, accels + [accel])
    decreases |accels|
  {
    if accels == [] {
      assert steps + more == more && more[..|more|] == more && more[|more|..] == [];
      assert AllInVain([], (accels + [accel])[1..]);
    } else {
      var k := if |steps| >= 1 && TriedInVain(steps[..1], accels[0]) && AllInVain(steps[1..], accels[1..]) then 1 else 2;
      OneMoreInVain(steps[k..], accels[1..], more, accel);
      assert (steps + more)[..k] == steps[..k] && (steps + more)[k..] == steps[k..] + more;
      assert (accels + [accel])[1..] == accels[1..] + [accel];
    }
  }

  lemma InVainNext(before: seq<Event>, tried: seq<Event>, accels: seq<string>, k: nat, steps: seq<Event>, log: seq<Event>)
    requires k < |accels| && AllInVain(tried, accels[..k]) && TriedInVain(steps, accels[k])
    requires log == before + tried + steps
    ensures AllInVain(tried + steps, accels[..k + 1])
    ensures log == before + (tried + steps)
  {
    OneMoreInVain(tried, accels[..k], steps, accels[k]);
    assert accels[..k + 1] == accels[..k] + [accels[k]];
  }

  /** `done` is received once, at the very end; power-down, terminate and kill come
    * at most once and in that order, the last two right after a timeout. */
  ghost predicate Escalates(steps: seq<Event>, i: nat) {
    && steps != []
    && (forall k :: 0 <= k < |steps| ==> (Receipt(steps[k], i) <==> k == |steps| - 1))
    && (forall j, k :: 0 <= j < k < |steps| && steps[j] == steps[k] ==> steps[j] == TimedOut)
    && (forall k :: 0 <= k < |steps| && steps[k] == Terminate(i) ==> k > 0 && steps[k - 1] == TimedOut)
    && (forall k :: 0 <= k < |steps| && steps[k] == Kill(i) ==>
          k > 1 && steps[k - 1] == TimedOut && steps[k - 2] == Terminate(i))
    && (forall j, k ::
          (0 <= j < |steps| && 0 <= k < |steps| && steps[j] == Powerdown && (steps[k] == Terminate(i) || steps[k] == Kill(i)))
          ==> j < k)
  }

  lemma EscalatesAfter(e: Event, steps: seq<Event>, i: nat)
    requires Escalates(steps, i) && (e.Interrupted? || e.Powerdown?) && e !in steps
    ensures Escalates([e] + steps, i)
  {
    var all := [e] + steps;
    assert forall k :: 0 < k < |all| ==> all[k] == steps[k - 1];
  }

  lemma WaitEscalates(tail: seq<Event>, i: nat)
    requires WaitShape(tail, i)
    ensures Escalates(tail, i) && Powerdown !in tail && Interrupted !in tail
  {
    assert |tail| == 1 || |tail| == 3 || |tail| == 5;
  }

  lemma ShutdownEscalates(steps: seq<Event>, i: nat, qmp: bool)
    requires ShutdownShape(steps, i, qmp)
    ensures Escalates(steps, i) && Interrupted !in steps
  {
    if qmp {
      WaitEscalates(steps[1..], i);
      EscalatesAfter(Powerdown, steps[1..], i);
      assert steps == [Powerdown] + steps[1..];
    } else {
      WaitEscalates(steps, i);
    }
  }

  /** Whatever way supervision ends, it escalates in order. */
  lemma SupervisionEscalates(steps: seq<Event>, i: nat, qmp: bool)
    requires SuperviseShape(steps, i, qmp)
    ensures Escalates(steps, i)
  {
    if !OnlyReceipt(steps, i) {
      ShutdownEscalates(steps[1..], i, qmp);
      EscalatesAfter(Interrupted, steps[1..], i);
      assert steps == [Interrupted] + steps[1..];
    }
  }

  /** Candidates tried in vain leave no child behind: each start is followed at once
    * by the receipt of that child's exit. */
  lemma {:induction false} InVainReaps(steps: seq<Event>, accels: seq<string>)
    requires AllInVain(steps, accels)
    ensures forall k :: 0 <= k < |steps| && steps[k].Started? ==>
              k + 1 < |steps| && Receipt(steps[k + 1], steps[k].i)
    ensures forall k :: 0 <= k < |steps| ==> !steps[k].GracePassed?
    decreases |accels|
  {
    if accels != [] {
      var n := if |steps| >= 1 && TriedInVain(steps[..1], accels[0]) && AllInVain(steps[1..], accels[1..]) then 1 else 2;
      InVainReaps(steps[n..], accels[1..]);
      assert steps == steps[..n] + steps[n..];
    }
  }

  /** What became of `WritePID`: done, died part-way, or the file could not be opened. */
  datatype Noting = Noted | PartlyNoted | Unnoted

  /** What a whole run did: how the disk's preparation failed, if it did, and whether
    * QEMU could open the disk; how many candidates were tried in vain, with their part
    * of the log; and what the log tells of the rest. */
  datatype Report = Report(fault: Option<Disk.PrepareFault>, bootable: bool, k: nat, tried: seq<Event>, starts: seq<Event>,
                           survivor: Option<nat>, noted: Noting, supervised: seq<Event>, cleared: bool, dropped: bool)

  /** The report of a run that got no child up. */
  function InVain(fault: Option<Disk.PrepareFault>, bootable: bool, k: nat, tried: seq<Event>): Report {
    Report(fault, bootable, k, tried, tried, None, Unnoted, [], false, false)
  }

  /** The starts of a run and its result belong together: candidate `k` survived, all
    * earlier ones having been tried in vain; or none was tried, because the disk, the
    * setup or the argument builder failed; or all were, in vain. */
  predicate Accounted(rep: Report, r: Result<(), RunError>, cands: seq<string>, builds: bool) {
    && rep.k <= |cands| && AllInVain(rep.tried, cands[..rep.k])
    && match rep.survivor
       case Some(i) =>
         && rep.k < |cands| && builds && rep.bootable
         && rep.starts == rep.tried + [Started(i, cands[rep.k]), GracePassed(i)]
         && (r.Err? <==> OnlyReceipt(rep.supervised, i) && rep.supervised[0].status != 0)
         && (r.Err? ==> r.error.ExitedWithError?)
       case None =>
         && rep.starts == rep.tried && r.Err? && !r.error.ExitedWithError?
         && (r.error.BuildFailed? ==> !builds)
         && (r.error.NotStartedAtAll? || r.error.ExitedEarly? ==> builds)
         && rep.k == if r.error.NotStartedAtAll? || r.error.ExitedEarly? then |cands| else 0
  }

  function NotedLog(i: nat, noted: Noting): seq<Event> {
    match noted
    case Noted => [PidWritten(i)]
    case PartlyNoted => [PidTorn(i)]
    case Unnoted => []
  }

  function ClearedLog(cleared: bool): seq<Event> {
    if cleared then [PidCleared] else []
  }

  /** From the pid file to the deferred `ClearPID`. */
  function Supervised(i: nat, noted: Noting, supervised: seq<Event>, cleared: bool): seq<Event> {
    NotedLog(i, noted) + supervised + ClearedLog(cleared)
  }

  /** The pid file after `WritePID`. */
  function PidNoted(before: Sys.PidFile, me: nat, i: nat, noted: Noting): Sys.PidFile {
    match noted
    case Noted => Sys.Names(me, i)
    case PartlyNoted => Sys.TornPid
    case Unnoted => before
  }

  /** The pid file after a run: a child that survived was noted, then cleared. */
  function PidAfter(before: Sys.PidFile, me: nat, r: Report): Sys.PidFile {
    if r.survivor.None? then before
    else if r.cleared then Sys.NoPid
    else PidNoted(before, me, r.survivor.value, r.noted)
  }

  /** The log of a run: starts, pid file, supervision, then the deferred calls in
    * reverse order of their registration. */
  function RunLog(r: Report): seq<Event> {
    r.starts
    + (if r.survivor.Some? then Supervised(r.survivor.value, r.noted, r.supervised, r.cleared) else [])
    + (if r.dropped then [OverlayDropped] else [])
  }

  lemma SupervisedLog(before: seq<Event>, i: nat, noted: Noting, supervised: seq<Event>, cleared: bool)
    ensures before + NotedLog(i, noted) + supervised + ClearedLog(cleared)
         == before + Supervised(i, noted, supervised, cleared)
  {
  }

  lemma SurvivorLog(before: seq<Event>, r: Report, log: seq<Event>)
    requires r.survivor.Some? && !r.dropped
    requires log == (before + r.starts) + Supervised(r.survivor.value, r.noted, r.supervised, r.cleared)
    ensures log == before + RunLog(r)
  {
    var s := Supervised(r.survivor.value, r.noted, r.supervised, r.cleared);
    assert r.starts + s + [] == r.starts + s;
    assert (before + r.starts) + s == before + (r.starts + s);
  }

  lemma DroppedLog(before: seq<Event>, r: Report, log: seq<Event>, dropped: bool)
    requires !r.dropped && log == before + RunLog(r) + (if dropped then [OverlayDropped] else [])
    ensures log == before + RunLog(r.(dropped := dropped))
  {
    assert RunLog(r.(dropped := dropped)) == RunLog(r) + (if dropped then [OverlayDropped] else []);
  }

  /** The events of `Disk` that a run amounts to, given the guest's writes. */
  function DiskHistory(digest: string, reset: bool, persist: bool, r: Report, ws: seq<(nat, int)>): seq<Disk.Event> {
    [Disk.Start(digest, reset, persist, r.fault, r.bootable, r.dropped)]
    + if r.bootable then Disk.Writes(ws) + [Disk.Stop(r.dropped)] else []
  }

  lemma FailedHistoryEffect(s: Disk.State, digest: string, reset: bool, persist: bool, r: Report, ws: seq<(nat, int)>)
    requires digest in s.cache && s.running.None? && !r.bootable
    requires !Disk.PrepareDisk(s.overlay, digest, s.cache[digest], reset, persist, r.fault).ok
    ensures Disk.Replay(s, DiskHistory(digest, reset, persist, r, ws)).overlay
            == Disk.PrepareDisk(s.overlay, digest, s.cache[digest], reset, persist, r.fault).overlay
  {
    var all := DiskHistory(digest, reset, persist, r, ws);
    assert all[1..] == [];
  }

  lemma DiskHistoryEffect(s: Disk.State, digest: string, reset: bool, persist: bool, r: Report,
                          prepared: Disk.Overlay, ws: seq<(nat, int)>)
    requires digest in s.cache && s.running.None?
    requires Disk.PrepareDisk(s.overlay, digest, s.cache[digest], reset, persist, r.fault) == Disk.Prepared(Some(prepared), true)
    requires r.bootable == Disk.Bootable(prepared, s.cache) && (!r.bootable ==> ws == [])
    ensures Disk.Replay(s, DiskHistory(digest, reset, persist, r, ws)).overlay
            == Disk.Unwind(Some(prepared.(blocks := Disk.Written(prepared.blocks, ws))), persist, r.dropped)
  {
    var all := DiskHistory(digest, reset, persist, r, ws);
    if r.bootable {
      assert all[1..] == Disk.Writes(ws) + [Disk.Stop(r.dropped)];
      Disk.ReplayWrites(Disk.Step(s, all[0]), ws, Disk.Stop(r.dropped));
    } else {
      assert all[1..] == [];
    }
  }

  /** Those events are a possible history of the disk machine. */
  lemma DiskHistoryPossible(c: Disk.Context, s: Disk.State, digest: string, reset: bool, persist: bool, r: Report,
                            ws: seq<(nat, int)>)
    requires digest in s.cache && s.running.None?
    requires var p := Disk.PrepareDisk(s.overlay, digest, s.cache[digest], reset, persist, r.fault);
             r.bootable ==> p.ok && Disk.Bootable(p.overlay.value, s.cache)
    ensures Disk.History(c, s, DiskHistory(digest, reset, persist, r, ws))
  {
    var all := DiskHistory(digest, reset, persist, r, ws);
    if r.bootable {
      assert all[1..] == Disk.Writes(ws) + [Disk.Stop(r.dropped)];
      Disk.WritesPossible(c, Disk.Step(s, all[0]), ws, r.dropped);
    } else {
      assert all[1..] == [];
    }
  }

  /** The candidates tried: the configured ones, else the spec's own accelerator. */
  function Candidates(candidates: seq<string>, specAccel: string): (cands: seq<string>)
    ensures candidates != [] ==> cands == candidates
    ensures candidates == [] ==> |cands| == 1 && cands[0] == specAccel
  {
    if candidates == [] then [specAccel] else candidates
  }

  class Launcher {
    var overlay: Option<Disk.Overlay>
    var pidFile: Sys.PidFile
    var table: seq<Proc>
    var log: seq<Event>

    ghost var prepared: Disk.Overlay
    ghost var writes: seq<(nat, int)>

    /** Which launcher this is. */
    const me: nat

    /** The run of the whole system that this launcher's steps amount to. */
    ghost const base: Sys.State
    ghost var trace: seq<Sys.Label>
    ghost var now: Sys.State

    ghost predicate Follows()
      reads this
    {
      && Sys.Run(base, trace) && Sys.Final(base, trace) == now
      && now.lock == base.lock && Lock.Holds(now.lock, me)
      && OwnTrace()
    }

    /** Every step so far was this launcher's own, and none was a step of the lock. */
    ghost predicate OwnTrace()
      reads this`trace
    {
      forall i :: 0 <= i < |trace| ==> !trace[i].LockStep? && trace[i].p == me
    }

    ghost predicate Synced()
      reads this
    {
      Follows() && now.overlay == overlay.Some? && now.pidFile == pidFile
    }

    ghost predicate At(phase: Sys.Phase, child: Sys.Child)
      reads this
    {
      Sys.LaunchOf(now, me) == Sys.Launch(phase, child)
    }

    constructor (overlay: Option<Disk.Overlay>, pidFile: Sys.PidFile, ghost base: Sys.State, me: nat)
      requires Lock.Holds(base.lock, me) && Sys.LaunchOf(base, me) == Sys.Launch(Sys.Outside, Sys.NoChild)
      requires base.overlay == overlay.Some? && base.pidFile == pidFile
      ensures Synced() && Quiet(Sys.Outside)
      ensures this.overlay == overlay && this.pidFile == pidFile && table == [] && log == []
      ensures this.base == base && this.me == me
    {
      this.overlay, this.pidFile, table, log := overlay, pidFile, [], [];
      this.base, this.me, trace, now := base, me, [], base;
      prepared, writes := Disk.Overlay("", Disk.Raw, map[], true), [];
    }

    /** Nothing is running and every child so far was reaped. */
    ghost predicate Quiet(phase: Sys.Phase)
      reads this
    {
      AllReaped(table) && At(phase, Sys.NoChild)
    }

    /** The child at index `i` has not been received from; all others were reaped. */
    ghost predicate Watching(phase: Sys.Phase, i: nat)
      reads this
    {
      && i < |table| && Channel(table[i]) && table[i].received == 0
      && (forall j :: 0 <= j < |table| && j != i ==> Reaped(table[j]))
      && At(phase, if table[i].alive then Sys.Running else Sys.Exited)
    }

    /** The guest's writes are all that happened to the overlay since it was prepared. */
    ghost predicate Tracked()
      reads this
    {
      overlay == Some(prepared.(blocks := Disk.Written(prepared.blocks, writes)))
    }

    ghost method Emit(l: Sys.Label)
      requires Follows() && Sys.Enabled(now, l) && !l.LockStep? && l.p == me
      modifies this`trace, this`now
      ensures Follows() && now == Sys.Apply(old(now), l) && trace == old(trace) + [l]
    {
      Sys.RunSnoc(base, trace, l);
      trace, now := trace + [l], Sys.Apply(now, l);
    }

    /** Time passes for the child at `i`: its guest may write, and it may exit, at
      * which point its status is posted. A child that cannot open its disk exits. */
    method Elapse(i: nat, bootable: bool, ghost phase: Sys.Phase)
      requires Synced() && Watching(phase, i) && Tracked()
      modifies this`overlay, this`writes, this`table, this`trace, this`now
      ensures Synced() && Watching(phase, i) && Tracked()
      ensures |table| == old(|table|) && (!bootable ==> !table[i].alive && writes == old(writes))
    {
      var n: nat :| n >= 0;
      while n > 0 && table[i].alive && bootable
        invariant Synced() && Watching(phase, i) && Tracked()
        invariant !bootable ==> writes == old(writes)
        invariant |table| == old(|table|) && table == old(table)
      {
        var block: nat, value: int :| true;
        Disk.WrittenSnoc(prepared.blocks, writes, (block, value));
        overlay := Some(overlay.value.(blocks := overlay.value.blocks[block := value]));
        writes := writes + [(block, value)];
        n := n - 1;
      }
      if table[i].alive {
        var exits := !bootable;
        if * {
          exits := true;
        }
        if exits {
          Exit(i, phase);
        }
      }
    }

    method Exit(i: nat, ghost phase: Sys.Phase)
      requires Synced() && Watching(phase, i) && table[i].alive
      modifies this`table, this`trace, this`now
      ensures Synced() && Watching(phase, i) && |table| == old(|table|) && !table[i].alive
    {
      var status: int :| true;
      Emit(Sys.ChildExits(me));
      table := table[i := Proc(false, Some(status), 0)];
    }

    /** `<-proc.done` when the status has been posted. */
    method Receive(i: nat, ghost phase: Sys.Phase) returns (status: int)
      requires Synced() && Watching(phase, i) && table[i].done.Some?
      requires phase.Grace? || phase.Supervising?
      modifies this`table, this`log, this`trace, this`now
      ensures Synced() && Quiet(if phase.Grace? then Sys.Prepared else Sys.Reaped)
      ensures |table| == old(|table|) && log == old(log) + [Received(i, status)]
      ensures old(table[i].done) == Some(status)
    {
      status := table[i].done.value;
      table := table[i := Proc(false, None, 1)];
      log := log + [Received(i, status)];
      if phase.Grace? {
        Emit(Sys.GraceReap(me));
      } else {
        Emit(Sys.SuperviseReap(me));
      }
    }

    /** `startQEMU` with the argument list of one candidate. */
    method StartQemu(accel: string) returns (started: bool)
      requires Synced() && Quiet(Sys.Prepared)
      modifies this`table, this`log, this`trace, this`now
      ensures Synced()
      ensures started ==> Watching(Sys.Grace, old(|table|)) && |table| == old(|table|) + 1
      ensures started ==> log == old(log) + [Started(old(|table|), accel)]
      ensures !started ==> Quiet(Sys.Prepared) && table == old(table) && log == old(log) + [NotStarted(accel)]
    {
      started := Works(false);
      if started {
        log := log + [Started(|table|, accel)];
        table := table + [Proc(true, None, 0)];
        Emit(Sys.StartChild(me));
      } else {
        log := log + [NotStarted(accel)];
      }
    }

    /** The body of the loop of `startWithAccelFallback`: one candidate, watched for its
      * grace period. */
    method TryCandidate(accel: string, bootable: bool)
      returns (survivor: Option<nat>, error: RunError, ghost steps: seq<Event>)
      requires Synced() && Quiet(Sys.Prepared) && Tracked()
      modifies this`overlay, this`writes, this`table, this`log, this`trace, this`now
      ensures Synced() && Tracked() && |table| >= old(|table|)
      ensures log == old(log) + steps && (error.NotStartedAtAll? || error.ExitedEarly?)
      ensures !bootable ==> writes == old(writes)
      ensures survivor.Some? ==> Watching(Sys.Supervising, survivor.value) && bootable
      ensures survivor.Some? ==> steps == [Started(survivor.value, accel), GracePassed(survivor.value)]
      ensures survivor.None? ==> Quiet(Sys.Prepared) && TriedInVain(steps, accel)
    {
      var started := StartQemu(accel);
      if !started {
        return None, NotStartedAtAll, [NotStarted(accel)];
      }
      var i := |table| - 1;
      Elapse(i, bootable, Sys.Grace);
      error := ExitedEarly;
      if {
        case table[i].done.Some? =>
          var status := Receive(i, Sys.Grace);
          survivor, steps := None, [Started(i, accel), Received(i, status)];
        case bootable =>
          log := log + [GracePassed(i)];
          Emit(Sys.GraceOver(me));
          survivor, steps := Some(i), [Started(i, accel), GracePassed(i)];
      }
    }

    /** `startWithAccelFallback`. On success the candidate named is number `k`, whose
      * child survived, every earlier one having failed to start or exited and been
      * reaped; on an error either the argument builder refused at the first
      * candidate, or every candidate was tried in vain. */
    method StartWithAccelFallback(candidates: seq<string>, specAccel: string, builds: bool, bootable: bool)
      returns (r: Result<(nat, string), RunError>, ghost k: nat, ghost tried: seq<Event>)
      requires Synced() && Quiet(Sys.Prepared) && Tracked()
      modifies this`overlay, this`writes, this`table, this`log, this`trace, this`now
      ensures Synced() && Tracked() && (!bootable ==> writes == old(writes))
      ensures k <= |Candidates(candidates, specAccel)|
      ensures r.Ok? ==>
                && k < |Candidates(candidates, specAccel)| && builds && bootable
                && r.value.1 == Candidates(candidates, specAccel)[k]
                && Watching(Sys.Supervising, r.value.0)
                && log == old(log) + tried + [Started(r.value.0, r.value.1), GracePassed(r.value.0)]
      ensures r.Err? ==>
                && Quiet(Sys.Prepared) && log == old(log) + tried
                && (r.error.BuildFailed? || r.error.NotStartedAtAll? || r.error.ExitedEarly?)
                && (r.error.BuildFailed? <==> !builds)
                && k == if builds then |Candidates(candidates, specAccel)| else 0
      ensures AllInVain(tried, Candidates(candidates, specAccel)[..k])
    {
      var cands := Candidates(candidates, specAccel);
      var lastErr: Option<RunError> := None;
      var j := 0;
      k, tried := 0, [];
      while j < |cands|
        invariant 0 <= k == j <= |cands|
        invariant Synced() && Quiet(Sys.Prepared) && Tracked()
        invariant log == old(log) + tried && AllInVain(tried, cands[..k])
        invariant !bootable ==> writes == old(writes)
        invariant j > 0 ==> builds && lastErr.Some? && (lastErr.value.NotStartedAtAll? || lastErr.value.ExitedEarly?)
      {
        if !builds {
          return Err(BuildFailed), k, tried;
        }
        var survivor, error;
        ghost var steps;
        survivor, error, steps := TryCandidate(cands[j], bootable);
        if survivor.Some? {
          return Ok((survivor.value, cands[j])), k, tried;
        }
        InVainNext(old(log), tried, cands, k, steps, log);
        tried, lastErr := tried + steps, Some(error);
        j, k := j + 1, k + 1;
      }
      r := Err(lastErr.value);
    }

    /** `shutdown`: power down, then terminate, then kill, each later step only after
      * a timeout; the child is received from exactly once, at the end. */
    method Shutdown(i: nat, qmp: bool) returns (ghost steps: seq<Event>)
      requires Synced() && Watching(Sys.Supervising, i) && Tracked()
      modifies this`overlay, this`writes, this`table, this`log, this`trace, this`now
      ensures Synced() && Quiet(Sys.Reaped) && Tracked() && |table| == old(|table|)
      ensures log == old(log) + steps && ShutdownShape(steps, i, qmp)
    {
      if qmp {
        log := log + [Powerdown];
        ghost var tail := AwaitExit(i);
        steps := [Powerdown] + tail;
        assert steps[1..] == tail;
      } else {
        steps := AwaitExit(i);
      }
    }

    /** `shutdown` after the request: wait, terminate, wait, kill, wait. */
    method AwaitExit(i: nat) returns (ghost steps: seq<Event>)
      requires Synced() && Watching(Sys.Supervising, i) && Tracked()
      modifies this`overlay, this`writes, this`table, this`log, this`trace, this`now
      ensures Synced() && Quiet(Sys.Reaped) && Tracked() && |table| == old(|table|)
      ensures log == old(log) + steps && WaitShape(steps, i)
    {
      Elapse(i, true, Sys.Supervising);
      if {
        case table[i].done.Some? =>
          var status := Receive(i, Sys.Supervising);
          return [Received(i, status)];
        case true =>
      }
      log := log + [TimedOut, Terminate(i)];
      ghost var tail := AwaitTermination(i);
      steps := [TimedOut, Terminate(i)] + tail;
      WaitAfterTimeout(tail, i);
    }

    /** `shutdown` once the child was told to terminate: wait, kill, wait. */
    method AwaitTermination(i: nat) returns (ghost steps: seq<Event>)
      requires Synced() && Watching(Sys.Supervising, i) && Tracked()
      modifies this`overlay, this`writes, this`table, this`log, this`trace, this`now
      ensures Synced() && Quiet(Sys.Reaped) && Tracked() && |table| == old(|table|)
      ensures log == old(log) + steps && steps != [] && Receipt(steps[|steps| - 1], i)
      ensures steps[..|steps| - 1] == [] || steps[..|steps| - 1] == [TimedOut, Kill(i)]
    {
      Elapse(i, true, Sys.Supervising);
      if {
        case table[i].done.Some? =>
          var status := Receive(i, Sys.Supervising);
          return [Received(i, status)];
        case true =>
      }
      log := log + [TimedOut, Kill(i)];
      // A killed process exits; the bare receive waits for that.
      if table[i].alive {
        Exit(i, Sys.Supervising);
      }
      var status := Receive(i, Sys.Supervising);
      steps := [TimedOut, Kill(i), Received(i, status)];
      assert steps[..2] == [TimedOut, Kill(i)];
    }

    /** `supervise`: until the guest powers off or the user interrupts. */
    method Supervise(i: nat, qmp: bool) returns (r: Result<(), RunError>, ghost steps: seq<Event>)
      requires Synced() && Watching(Sys.Supervising, i) && Tracked()
      modifies this`overlay, this`writes, this`table, this`log, this`trace, this`now
      ensures Synced() && Quiet(Sys.Reaped) && Tracked() && |table| == old(|table|)
      ensures log == old(log) + steps && SuperviseShape(steps, i, qmp)
      ensures r.Err? <==> OnlyReceipt(steps, i) && steps[0].status != 0
      ensures r.Err? ==> r.error.ExitedWithError?
    {
      Elapse(i, true, Sys.Supervising);
      if {
        case table[i].done.Some? =>
          var status := Receive(i, Sys.Supervising);
          return if status != 0 then Err(ExitedWithError) else Ok(()), [Received(i, status)];
        case true =>
      }
      log := log + [Interrupted];
      ghost var rest := Shutdown(i, qmp);
      steps := [Interrupted] + rest;
      assert steps[1..] == rest;
      r := Ok(());
    }

    /** `prepareDisk`: what is left at the overlay's path is what `Disk` specifies for
      * the fault that was met, and on success none was. */
    method PrepareDisk(digest: string, image: Disk.Bytes, reset: bool, persist: bool, calm: bool)
      returns (ok: bool, ghost fault: Option<Disk.PrepareFault>)
      requires Synced() && Quiet(Sys.Entered)
      modifies this`overlay, this`prepared, this`writes, this`trace, this`now
      ensures Synced() && Quiet(if ok then Sys.Prepared else Sys.Unwound)
      ensures Disk.PrepareDisk(old(overlay), digest, image, reset, persist, fault) == Disk.Prepared(overlay, ok)
      ensures ok ==> overlay == Some(prepared) && Tracked() && writes == []
      ensures calm || ok ==> fault.None?
    {
      fault := None;
      if reset || !persist {
        ok := RemoveOld(calm);
        if !ok {
          return false, Some(Disk.RemoveFails);
        }
      }
      if overlay.None? {
        ok, fault := CreateOverlay(digest, image, calm);
        if !ok {
          return;
        }
      }
      prepared, writes := overlay.value, [];
      Emit(Sys.PrepareDisk(me));
      ok := true;
    }

    /** `RemoveOverlay` before a fresh disk is made. */
    method RemoveOld(calm: bool) returns (ok: bool)
      requires Synced() && Quiet(Sys.Entered)
      modifies this`overlay, this`trace, this`now
      ensures Synced() && Quiet(if ok then Sys.Entered else Sys.Unwound)
      ensures overlay == if ok then None else old(overlay)
      ensures calm ==> ok
    {
      ok := Works(calm);
      if ok {
        overlay := None;
        Emit(Sys.ResetOverlay(me));
      } else {
        Emit(Sys.PrepareFails(me));
      }
    }

    /** `CreateOverlay` when there is none: `qemu-img` writes the final path, and may
      * die before or while it does. */
    method CreateOverlay(digest: string, image: Disk.Bytes, calm: bool) returns (ok: bool, ghost fault: Option<Disk.PrepareFault>)
      requires Synced() && Quiet(Sys.Entered) && overlay.None?
      modifies this`overlay, this`trace, this`now
      ensures Follows() && now.pidFile == pidFile && Quiet(if ok then Sys.Entered else Sys.Unwound)
      ensures !ok ==> Synced()
      ensures Disk.CreateOverlay(None, digest, image, fault) == Disk.Prepared(overlay, ok) && fault != Some(Disk.RemoveFails)
      ensures calm || ok ==> fault.None?
    {
      fault := None;
      var format := Disk.DiskFormat(image);
      ok := Works(calm);
      if format.None? {
        Emit(Sys.PrepareFails(me));
        return false, None;
      }
      if ok {
        overlay := Some(Disk.Overlay(digest, format.value, map[], true));
      } else if * {
        Emit(Sys.PrepareFails(me));
        fault := Some(Disk.CreateFails);
      } else {
        overlay := Some(Disk.Overlay(digest, format.value, map[], false));
        Emit(Sys.PrepareTears(me));
        fault := Some(Disk.CreateTears);
      }
    }

    /** The deferred removal of an ephemeral run's overlay; its error is dropped. */
    method Unwind(persist: bool, calm: bool) returns (dropped: bool)
      requires Synced() && Quiet(Sys.PidCleared) && Tracked()
      modifies this`overlay, this`log, this`trace, this`now
      ensures Synced() && Quiet(Sys.Unwound)
      ensures overlay == Disk.Unwind(old(overlay), persist, dropped)
      ensures log == old(log) + if dropped then [OverlayDropped] else []
      ensures dropped ==> !persist
      ensures calm ==> dropped == !persist
    {
      dropped := Works(calm);
      dropped := dropped && !persist;
      if dropped {
        overlay, log := None, log + [OverlayDropped];
        Emit(Sys.DropOverlay(me));
      } else {
        Emit(Sys.KeepOverlay(me));
      }
    }

    /** `Run`. When it returns, every child ever started has exited and was received
      * from exactly once; the starts account for the result; the pid file is gone
      * unless its removal failed; the launcher is at the point where only the lock's
      * release is left; and the overlay, whatever went wrong on the way, is what the
      * disk machine of `Disk` makes of this run. */
    method Run(cache: map<string, Disk.Bytes>, digest: string, reset: bool, persist: bool, candidates: seq<string>,
               specAccel: string, builds: bool, qmp: bool, calm: bool)
      returns (r: Result<(), RunError>, ghost report: Report)
      requires Synced() && Quiet(Sys.Outside) && digest in cache
      modifies this
      ensures Synced() && Quiet(Sys.Unwound)
      ensures log == old(log) + RunLog(report)
      ensures Accounted(report, r, Candidates(candidates, specAccel), builds)
      ensures report.survivor.Some? ==>
                report.survivor.value < |table| && SuperviseShape(report.supervised, report.survivor.value, qmp)
      ensures pidFile == PidAfter(old(pidFile), me, report)
      ensures calm && report.survivor.Some? ==> report.noted.Noted? && report.cleared
      ensures var p := Disk.PrepareDisk(old(overlay), digest, cache[digest], reset, persist, report.fault);
              && (p.ok <==> !(r.Err? && r.error.PrepareFailed?))
              && (p.ok ==> p.overlay == Some(prepared) && report.bootable == Disk.Bootable(prepared, cache))
              && (p.ok ==> overlay == Disk.Unwind(Some(prepared.(blocks := Disk.Written(prepared.blocks, writes))),
                                                  persist, report.dropped))
              && (calm ==> report.fault.None? && report.dropped == (p.ok && !persist))
      ensures report.bootable ==> !(r.Err? && r.error.PrepareFailed?)
      ensures report.dropped ==> !persist && !(r.Err? && r.error.PrepareFailed?)
      ensures overlay == Disk.Replay(Disk.State(cache, old(overlay), None),
                                     DiskHistory(digest, reset, persist, report, writes)).overlay
    {
      Emit(Sys.Enter(me));
      ghost var s := Disk.State(cache, overlay, None);
      var ready;
      ghost var fault;
      ready, fault := PrepareDisk(digest, cache[digest], reset, persist, calm);
      if !ready {
        r, report := Err(PrepareFailed), InVain(fault, false, 0, []);
        FailedHistoryEffect(s, digest, reset, persist, report, writes);
        return;
      }
      var bootable := Disk.Bootable(overlay.value, cache);
      r, report := RunPrepared(candidates, specAccel, builds, bootable, qmp, persist, calm);
      DiskHistoryEffect(s, digest, reset, persist, report, prepared, writes);
    }

    /** `Run` from the point where the disk is ready, its deferred calls included. */
    method RunPrepared(candidates: seq<string>, specAccel: string, builds: bool, bootable: bool, qmp: bool,
                       persist: bool, calm: bool)
      returns (r: Result<(), RunError>, ghost report: Report)
      requires Synced() && Quiet(Sys.Prepared) && Tracked() && writes == []
      modifies this`overlay, this`writes, this`table, this`log, this`pidFile, this`trace, this`now
      ensures Synced() && Quiet(Sys.Unwound)
      ensures log == old(log) + RunLog(report) && report.fault.None? && report.bootable == bootable
      ensures Accounted(report, r, Candidates(candidates, specAccel), builds)
      ensures r.Err? ==> !r.error.PrepareFailed?
      ensures report.survivor.Some? ==>
                report.survivor.value < |table| && SuperviseShape(report.supervised, report.survivor.value, qmp)
      ensures pidFile == PidAfter(old(pidFile), me, report)
      ensures calm && report.survivor.Some? ==> report.noted.Noted? && report.cleared
      ensures !bootable ==> writes == []
      ensures overlay == Disk.Unwind(Some(prepared.(blocks := Disk.Written(prepared.blocks, writes))), persist, report.dropped)
      ensures (report.dropped ==> !persist) && (calm ==> report.dropped == !persist)
      ensures r.Err? && r.error.SetupFailed? ==> !calm
    {
      r, report := SetUpAndSupervise(candidates, specAccel, builds, bootable, qmp, calm);
      var dropped := Unwind(persist, calm);
      DroppedLog(old(log), report, log, dropped);
      report := report.(dropped := dropped);
    }

    /** `Run` from the seed and the control channels, either of which may fail, up to and
      * including the deferred `ClearPID`. */
    method SetUpAndSupervise(candidates: seq<string>, specAccel: string, builds: bool, bootable: bool, qmp: bool, calm: bool)
      returns (r: Result<(), RunError>, ghost report: Report)
      requires Synced() && Quiet(Sys.Prepared) && Tracked()
      modifies this`overlay, this`writes, this`table, this`log, this`pidFile, this`trace, this`now
      ensures Synced() && Quiet(Sys.PidCleared) && Tracked()
      ensures log == old(log) + RunLog(report) && !report.dropped && report.fault.None? && report.bootable == bootable
      ensures !bootable ==> writes == old(writes)
      ensures Accounted(report, r, Candidates(candidates, specAccel), builds)
      ensures r.Err? ==> !r.error.PrepareFailed? && (r.error.SetupFailed? ==> !calm)
      ensures report.survivor.Some? ==>
                report.survivor.value < |table| && SuperviseShape(report.supervised, report.survivor.value, qmp)
      ensures pidFile == PidAfter(old(pidFile), me, report)
      ensures calm && report.survivor.Some? ==> report.noted.Noted? && report.cleared
    {
      var setUp := Works(calm);
      if setUp {
        r, report := StartAndSupervise(candidates, specAccel, builds, bootable, qmp, calm);
      } else {
        r, report := Err(SetupFailed), InVain(None, bootable, 0, []);
        Emit(Sys.NoCandidateLeft(me));
      }
    }

    /** `Run` from `startWithAccelFallback` up to and including the deferred `ClearPID`. */
    method StartAndSupervise(candidates: seq<string>, specAccel: string, builds: bool, bootable: bool, qmp: bool, calm: bool)
      returns (r: Result<(), RunError>, ghost report: Report)
      requires Synced() && Quiet(Sys.Prepared) && Tracked()
      modifies this`overlay, this`writes, this`table, this`log, this`pidFile, this`trace, this`now
      ensures Synced() && Quiet(Sys.PidCleared) && Tracked()
      ensures log == old(log) + RunLog(report) && !report.dropped && report.fault.None? && report.bootable == bootable
      ensures !bootable ==> writes == old(writes)
      ensures Accounted(report, r, Candidates(candidates, specAccel), builds)
      ensures r.Err? ==> !r.error.PrepareFailed? && !r.error.SetupFailed?
      ensures report.survivor.Some? ==>
                report.survivor.value < |table| && SuperviseShape(report.supervised, report.survivor.value, qmp)
      ensures pidFile == PidAfter(old(pidFile), me, report)
      ensures calm && report.survivor.Some? ==> report.noted.Noted? && report.cleared
    {
      var started;
      ghost var k, tried;
      started, k, tried := StartWithAccelFallback(candidates, specAccel, builds, bootable);
      if started.Err? {
        Emit(Sys.NoCandidateLeft(me));
        return Err(started.error), InVain(None, bootable, k, tried);
      }
      var i, accel := started.value.0, started.value.1;
      ghost var starts := tried + [Started(i, accel), GracePassed(i)];
      assert log == old(log) + starts;
      var noted, cleared;
      ghost var supervised;
      r, noted, supervised, cleared := RecordAndSupervise(i, qmp, calm);
      report := Report(None, bootable, k, tried, starts, Some(i), noted, supervised, cleared, false);
      SurvivorLog(old(log), report, log) by {
        assert log == (old(log) + starts) + Supervised(i, noted, supervised, cleared);
      }
    }

    /** `WritePID`; the caller only logs its error, whatever that left of the file. */
    method WritePid(i: nat, calm: bool) returns (noted: Noting)
      requires Synced() && Watching(Sys.Supervising, i)
      modifies this`log, this`pidFile, this`trace, this`now
      ensures Synced() && Watching(Sys.Supervising, i)
      ensures log == old(log) + NotedLog(i, noted)
      ensures pidFile == PidNoted(old(pidFile), me, i, noted)
      ensures calm ==> noted.Noted?
    {
      var works := Works(calm);
      if works {
        noted, pidFile, log := Noted, Sys.Names(me, i), log + [PidWritten(i)];
        Emit(Sys.RecordPid(me, i));
      } else if * {
        noted, pidFile, log := PartlyNoted, Sys.TornPid, log + [PidTorn(i)];
        Emit(Sys.TearPid(me));
      } else {
        noted := Unnoted;
      }
    }

    /** The deferred `ClearPID`; its error is dropped. */
    method ClearPid(calm: bool) returns (cleared: bool)
      requires Synced() && Quiet(Sys.Reaped)
      modifies this`log, this`pidFile, this`trace, this`now
      ensures Synced() && Quiet(Sys.PidCleared)
      ensures log == old(log) + ClearedLog(cleared)
      ensures pidFile == if cleared then Sys.NoPid else old(pidFile)
      ensures calm ==> cleared
    {
      cleared := Works(calm);
      if cleared {
        pidFile, log := Sys.NoPid, log + [PidCleared];
        Emit(Sys.ClearPid(me));
      } else {
        Emit(Sys.KeepPid(me));
      }
    }

    /** From the pid file to its deferred removal. */
    method RecordAndSupervise(i: nat, qmp: bool, calm: bool)
      returns (r: Result<(), RunError>, noted: Noting, ghost supervised: seq<Event>, cleared: bool)
      requires Synced() && Watching(Sys.Supervising, i) && Tracked()
      modifies this`overlay, this`writes, this`table, this`log, this`pidFile, this`trace, this`now
      ensures Synced() && Quiet(Sys.PidCleared) && Tracked()
      ensures log == old(log) + Supervised(i, noted, supervised, cleared)
      ensures i < |table| && SuperviseShape(supervised, i, qmp)
      ensures pidFile == if cleared then Sys.NoPid else PidNoted(old(pidFile), me, i, noted)
      ensures calm ==> noted.Noted? && cleared
      ensures r.Err? <==> OnlyReceipt(supervised, i) && supervised[0].status != 0
      ensures r.Err? ==> r.error.ExitedWithError?
    {
      noted := WritePid(i, calm);
      r, supervised := Supervise(i, qmp);
      cleared := ClearPid(calm);
      SupervisedLog(old(log), i, noted, supervised, cleared);
    }
  }
}
