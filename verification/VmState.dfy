/** The state directory of one instance: the lock file, as the launcher's own calls
  * change it. */
module VmState {
  import opened Wrappers
  import opened Faults
  import Text
  import Lock = LockProtocol

  /** What `AcquireLock` writes into the file it created. */
  function PidText(pid: nat): string {
    Text.Itoa(pid) + "\n"
  }

  /** `readPID` on the text of a file: anything but a numeral reads as 0. */
  function ReadPid(text: string): int {
    var pid := Text.Atoi(Text.Trim(text));
    if pid.Some? then pid.value else 0
  }

  /** A pid is read back from what was written, and an empty file reads as none. */
  lemma PidRoundTrip(pid: nat)
    ensures ReadPid(PidText(pid)) == pid && ReadPid("") == 0
  {
    Text.AtoiItoa(pid);
    Text.DigitsAreWord(Text.Itoa(pid));
    assert Text.IsSpace('\n');
    Text.TrimPadded("", Text.Itoa(pid), "\n");
    assert "" + Text.Itoa(pid) + "\n" == PidText(pid);
  }

  datatype AcquireError = OpenFailed | AlreadyRunning(pid: int) | RemoveFailed | CouldNotAcquire

  /** Every step of the run is launcher `p`'s own. */
  ghost predicate OwnSteps(ls: seq<Lock.Label>, p: nat) {
    forall i :: 0 <= i < |ls| ==> ls[i].p == p && !ls[i].Spawn? && !ls[i].Crash?
  }

  /** Nobody but `p` has moved. */
  ghost predicate OthersSame(s: Lock.State, t: Lock.State, p: nat) {
    t.procs.Keys == s.procs.Keys && forall q :: q in s.procs && q != p ==> t.procs[q] == s.procs[q]
  }

  /** A run of `p` alone, from `s` to `t`. */
  ghost predicate OwnRun(s: Lock.State, ls: seq<Lock.Label>, t: Lock.State, p: nat) {
    && OwnSteps(ls, p) && Lock.Run(s, ls) && Lock.Final(s, ls) == t
    && Lock.Live(s, p) && Lock.Live(t, p) && t.procs[p].pid == s.procs[p].pid && OthersSame(s, t, p)
  }

  lemma Extend(s: Lock.State, ls: seq<Lock.Label>, t: Lock.State, l: Lock.Label, p: nat)
    requires OwnRun(s, ls, t, p)
    requires Lock.Enabled(t, l) && l.p == p && !l.Spawn? && !l.Crash?
    ensures OwnRun(s, ls + [l], Lock.Apply(t, l), p)
  {
    Lock.RunSnoc(s, ls, l);
  }

  /** While only `p` moves, the set of live process ids stays what it was. */
  lemma SamePids(s: Lock.State, t: Lock.State, p: nat, pid: int)
    requires Lock.Live(s, p) && Lock.Live(t, p) && t.procs[p].pid == s.procs[p].pid && OthersSame(s, t, p)
    ensures Lock.PidLive(t, pid) ==> Lock.PidLive(s, pid)
  {
    if Lock.PidLive(t, pid) {
      var q :| Lock.Live(t, q) && t.procs[q].pid == pid;
      assert Lock.Live(s, q) && s.procs[q].pid == pid;
    }
  }

  class StateDir {
    /** The text of the lock file, when there is one. */
    var lock: Option<string>
    ghost var file: Option<Lock.LockFile>

    ghost predicate Valid()
      reads this
    {
      if lock.Some? then file.Some? && file.value.content == ReadPid(lock.value) else file.None?
    }

    constructor ()
      ensures Valid() && lock == None
    {
      lock, file := None, None;
    }

    /** The lock names a process that is reported alive. */
    predicate Blocked(alive: int -> bool)
      reads this
    {
      lock.Some? && ReadPid(lock.value) > 0 && alive(ReadPid(lock.value))
    }

    /** `AcquireLock` after the exclusive create has succeeded: write the pid. */
    method FinishCreate(pid: nat, calm: bool, ghost s: Lock.State, ghost ls: seq<Lock.Label>, ghost t: Lock.State, ghost p: nat)
      returns (ghost ms: seq<Lock.Label>, ghost u: Lock.State)
      requires OwnRun(s, ls, t, p) && t.procs[p].pc.Opening? && t.procs[p].pid == pid
      requires t.file == file == None
      modifies this`lock, this`file
      ensures Valid() && OwnRun(s, ms, u, p) && u.file == file
      ensures Lock.Holds(u, p) && file.Some? && file.value.owner == p && file.value.gen == t.nextGen
      ensures calm ==> lock == Some(PidText(pid))
    {
      Extend(s, ls, t, Lock.Create(p), p);
      ms, u := ls + [Lock.Create(p)], Lock.Apply(t, Lock.Create(p));
      PidRoundTrip(pid);
      lock, file := Some(""), u.file;
      var ok := Works(calm);
      if ok {
        Extend(s, ms, u, Lock.WritePid(p), p);
        ms, u := ms + [Lock.WritePid(p)], Lock.Apply(u, Lock.WritePid(p));
        lock, file := Some(PidText(pid)), u.file;
      } else {
        // The source drops the error of the write.
        Extend(s, ms, u, Lock.WriteError(p), p);
        ms, u := ms + [Lock.WriteError(p)], Lock.Apply(u, Lock.WriteError(p));
      }
    }

    /** `AcquireLock` when the lock exists: read it, judge its holder, remove it if stale. */
    method Reclaim(attempt: nat, alive: int -> bool, calm: bool, ghost s: Lock.State, ghost ls: seq<Lock.Label>,
                   ghost t: Lock.State, ghost p: nat)
      returns (failure: Option<AcquireError>, ghost ms: seq<Lock.Label>, ghost u: Lock.State)
      requires Valid() && OwnRun(s, ls, t, p) && t.procs[p].pc == Lock.Opening(attempt)
      requires t.file == file && file.Some?
      requires forall q: int :: Lock.PidLive(s, q) ==> alive(q)
      modifies this`lock, this`file
      ensures Valid() && OwnRun(s, ms, u, p) && u.file == file && u.nextGen == t.nextGen
      ensures failure.Some? ==> u.procs[p].pc == Lock.Failed && lock == old(lock)
      ensures failure.Some? && failure.value.AlreadyRunning? ==>
                old(Blocked(alive)) && failure.value.pid == ReadPid(old(lock.value))
      ensures failure.None? ==> lock.None? && u.procs[p].pc == if attempt == 0 then Lock.Opening(1) else Lock.Failed
      ensures calm ==> failure.Some? == old(Blocked(alive))
    {
      Extend(s, ls, t, Lock.FindExisting(p), p);
      ms, u := ls + [Lock.FindExisting(p)], Lock.Apply(t, Lock.FindExisting(p));
      var read := 0;
      var ok := Works(calm);
      if ok {
        Extend(s, ms, u, Lock.Read(p), p);
        ms, u := ms + [Lock.Read(p)], Lock.Apply(u, Lock.Read(p));
        read := ReadPid(lock.value);
      } else {
        Extend(s, ms, u, Lock.ReadError(p), p);
        ms, u := ms + [Lock.ReadError(p)], Lock.Apply(u, Lock.ReadError(p));
      }
      if read > 0 && alive(read) {
        Extend(s, ms, u, Lock.JudgeAlive(p), p);
        return Some(AlreadyRunning(read)), ms + [Lock.JudgeAlive(p)], Lock.Apply(u, Lock.JudgeAlive(p));
      }
      SamePids(s, u, p, read);
      failure, ms, u := RemoveStale(calm, s, ms, u, p);
    }

    method RemoveStale(calm: bool, ghost s: Lock.State, ghost ls: seq<Lock.Label>, ghost t: Lock.State, ghost p: nat)
      returns (failure: Option<AcquireError>, ghost ms: seq<Lock.Label>, ghost u: Lock.State)
      requires Valid() && OwnRun(s, ls, t, p) && Lock.Enabled(t, Lock.JudgeDead(p))
      requires t.file == file && file.Some?
      modifies this`lock, this`file
      ensures Valid() && OwnRun(s, ms, u, p) && u.file == file && u.nextGen == t.nextGen
      ensures failure.Some? ==> failure.value.RemoveFailed? && !calm && u.procs[p].pc == Lock.Failed && lock == old(lock)
      ensures failure.None? ==> lock.None? && u.procs[p].pc == if t.procs[p].pc.attempt == 0 then Lock.Opening(1) else Lock.Failed
    {
      Extend(s, ls, t, Lock.JudgeDead(p), p);
      ms, u := ls + [Lock.JudgeDead(p)], Lock.Apply(t, Lock.JudgeDead(p));
      var ok := Works(calm);
      if !ok {
        Extend(s, ms, u, Lock.RemoveError(p), p);
        return Some(RemoveFailed), ms + [Lock.RemoveError(p)], Lock.Apply(u, Lock.RemoveError(p));
      }
      Extend(s, ms, u, Lock.Remove(p), p);
      ms, u := ms + [Lock.Remove(p)], Lock.Apply(u, Lock.Remove(p));
      lock, file := None, None;
      failure := None;
    }

    /** `AcquireLock` by launcher `p` with process id `pid` while no other launcher
      * moves. The call is a run of the step system of `LockProtocol`, and ends
      * holding the lock exactly when it returns success. */
    method AcquireLock(pid: nat, alive: int -> bool, calm: bool, ghost s: Lock.State, ghost p: nat)
      returns (r: Result<(), AcquireError>, ghost ls: seq<Lock.Label>, ghost t: Lock.State)
      requires Valid() && s.file == file && pid > 0
      requires Lock.Live(s, p) && s.procs[p] == Lock.Proc(pid, true, Lock.Opening(0))
      requires forall q: int :: Lock.PidLive(s, q) ==> alive(q)
      modifies this`lock, this`file
      ensures Valid()
      ensures OwnRun(s, ls, t, p) && t.file == file
      ensures if r.Ok? then Lock.Holds(t, p) else t.procs[p].pc == Lock.Failed
      ensures r.Ok? ==> file.Some? && file.value.owner == p && file.value.gen == s.nextGen
      ensures r.Ok? && calm ==> lock == Some(PidText(pid))
      ensures calm ==> (r.Ok? <==> !old(Blocked(alive)))
      ensures r.Err? && r.error.AlreadyRunning? ==> old(Blocked(alive)) && lock == old(lock) && r.error.pid == ReadPid(old(lock.value))
    {
      ls, t := [], s;
      var attempt := 0;
      while attempt < 2
        invariant 0 <= attempt <= 2 && Valid() && t.file == file && t.nextGen == s.nextGen
        invariant OwnRun(s, ls, t, p)
        invariant t.procs[p].pc == if attempt < 2 then Lock.Opening(attempt) else Lock.Failed
        invariant attempt == 0 ==> lock == old(lock)
        invariant attempt > 0 ==> lock.None? && (calm ==> !old(Blocked(alive)))
        invariant attempt == 2 ==> !calm
      {
        var ok := Works(calm);
        if !ok {
          Extend(s, ls, t, Lock.OpenError(p), p);
          return Err(OpenFailed), ls + [Lock.OpenError(p)], Lock.Apply(t, Lock.OpenError(p));
        }
        if lock.None? {
          ls, t := FinishCreate(pid, calm, s, ls, t, p);
          return Ok(()), ls, t;
        }
        var failure;
        failure, ls, t := Reclaim(attempt, alive, calm, s, ls, t, p);
        if failure.Some? {
          return Err(failure.value), ls, t;
        }
        attempt := attempt + 1;
      }
      r := Err(CouldNotAcquire);
    }

    /** The closure `AcquireLock` returns: remove the file, whosever it is by now. The
      * error of the remove is dropped. */
    method Release(calm: bool, ghost s: Lock.State, ghost p: nat) returns (ghost removed: bool, ghost l: Lock.Label, ghost t: Lock.State)
      requires Valid() && s.file == file && Lock.Holds(s, p)
      modifies this`lock, this`file
      ensures Valid() && lock == if removed then None else old(lock)
      ensures l == if removed then Lock.Release(p) else Lock.ReleaseError(p)
      ensures t == Lock.Apply(s, l) && t.file == file
      ensures calm ==> removed
    {
      var works := Works(calm);
      removed, l := works, if works then Lock.Release(p) else Lock.ReleaseError(p);
      t := Lock.Apply(s, l);
      if works {
        lock, file := None, None;
      }
    }
  }
}
