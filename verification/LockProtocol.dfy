/** The lock-file protocol of `State.AcquireLock` as a step system run by
  * unboundedly many launchers, with crashes, I/O faults and stale reclaim.
  *
  * Every system call of the source is one step. A lock file carries two facts
  * that are not on disk: the generation (which successful create made it) and
  * the launcher that made it. */
module LockProtocol {
  import opened Wrappers

  /** `content` is what `readPID` makes of the bytes: 0 when empty or unparsable. */
  datatype LockFile = LockFile(gen: nat, owner: nat, content: int)

  /** Where a launcher stands inside `AcquireLock`; `read` is the file it last read. */
  datatype PC =
    | Opening(attempt: nat)
    | Created(gen: nat)
    | Holding(gen: nat)
    | Reading(attempt: nat)
    | Seen(attempt: nat, read: Option<LockFile>)
    | Removing(attempt: nat, read: Option<LockFile>)
    | Failed
    | Released

  datatype Proc = Proc(pid: nat, live: bool, pc: PC)

  datatype State = State(procs: map<nat, Proc>, file: Option<LockFile>, nextGen: nat)

  datatype Label =
    | Spawn(p: nat, pid: nat)
    | Create(p: nat)
    | FindExisting(p: nat)
    | OpenError(p: nat)
    | WritePid(p: nat)
    | WriteError(p: nat)
    | Read(p: nat)
    | ReadError(p: nat)
    | JudgeAlive(p: nat)
    | JudgeDead(p: nat)
    | Remove(p: nat)
    | RemoveError(p: nat)
    | Release(p: nat)
    | ReleaseError(p: nat)
    | Crash(p: nat)

  function ReadPid(read: Option<LockFile>): int {
    if read.Some? then read.value.content else 0
  }

  predicate Live(s: State, p: nat) {
    p in s.procs && s.procs[p].live
  }

  /** Some live launcher has this process id. */
  ghost predicate PidLive(s: State, pid: int) {
    exists q :: Live(s, q) && s.procs[q].pid == pid
  }

  /** A live launcher between its successful create and its release. */
  predicate InLock(s: State, p: nat) {
    Live(s, p) && (s.procs[p].pc.Created? || s.procs[p].pc.Holding?)
  }

  predicate Holds(s: State, p: nat) {
    Live(s, p) && s.procs[p].pc.Holding?
  }

  /** `processAlive` always reports a live process alive; about a dead one it may
    * answer either way, because its process id may have been reused. */
  ghost predicate Enabled(s: State, l: Label) {
    if l.Spawn? then l.p !in s.procs && l.pid > 0 && !PidLive(s, l.pid)
    else
      && Live(s, l.p)
      && var pc := s.procs[l.p].pc;
      match l
      case Create(_) => pc.Opening? && s.file.None?
      case FindExisting(_) => pc.Opening? && s.file.Some?
      case OpenError(_) => pc.Opening?
      case WritePid(_) => pc.Created?
      case WriteError(_) => pc.Created?
      case Read(_) => pc.Reading?
      case ReadError(_) => pc.Reading?
      case JudgeAlive(_) => pc.Seen? && ReadPid(pc.read) > 0
      case JudgeDead(_) => pc.Seen? && (ReadPid(pc.read) <= 0 || !PidLive(s, ReadPid(pc.read)))
      case Remove(_) => pc.Removing?
      case RemoveError(_) => pc.Removing?
      case Release(_) => pc.Holding?
      case ReleaseError(_) => pc.Holding?
      case Crash(_) => true
  }

  function Goto(s: State, p: nat, pc: PC): State
    requires p in s.procs
  {
    s.(procs := s.procs[p := s.procs[p].(pc := pc)])
  }

  ghost function Apply(s: State, l: Label): State
    requires Enabled(s, l)
  {
    match l
    case Spawn(p, pid) => s.(procs := s.procs[p := Proc(pid, true, Opening(0))])
    case Create(p) =>
      Goto(s, p, Created(s.nextGen)).(file := Some(LockFile(s.nextGen, p, 0)), nextGen := s.nextGen + 1)
    case FindExisting(p) => Goto(s, p, Reading(s.procs[p].pc.attempt))
    case OpenError(p) => Goto(s, p, Failed)
    case WritePid(p) =>
      // The write goes to the open file, which may no longer be the one on disk.
      var g := s.procs[p].pc.gen;
      Goto(s, p, Holding(g)).(file :=
        if s.file.Some? && s.file.value.gen == g
        then Some(s.file.value.(content := s.procs[p].pid)) else s.file)
    case WriteError(p) => Goto(s, p, Holding(s.procs[p].pc.gen))
    case Read(p) => Goto(s, p, Seen(s.procs[p].pc.attempt, s.file))
    case ReadError(p) => Goto(s, p, Seen(s.procs[p].pc.attempt, None))
    case JudgeAlive(p) => Goto(s, p, Failed)
    case JudgeDead(p) => Goto(s, p, Removing(s.procs[p].pc.attempt, s.procs[p].pc.read))
    case Remove(p) =>
      if s.file.None? then Goto(s, p, Failed)
      else Goto(s, p, if s.procs[p].pc.attempt == 0 then Opening(1) else Failed).(file := None)
    case RemoveError(p) => Goto(s, p, Failed)
    case Release(p) => Goto(s, p, Released).(file := None)
    case ReleaseError(p) => Goto(s, p, Released)
    case Crash(p) => s.(procs := s.procs[p := s.procs[p].(live := false)])
  }

  /* ---------- runs ---------- */

  ghost predicate Run(s: State, ls: seq<Label>)
    decreases |ls|
  {
    ls == [] || (Enabled(s, ls[0]) && Run(Apply(s, ls[0]), ls[1..]))
  }

  ghost function Final(s: State, ls: seq<Label>): State
    requires Run(s, ls)
    decreases |ls|
  {
    if ls == [] then s else Final(Apply(s, ls[0]), ls[1..])
  }

  /** Nobody runs yet; a file left behind by a dead launcher may have any content. */
  ghost predicate Init(s: State) {
    && (forall p :: p in s.procs ==> !s.procs[p].live)
    && (s.file.Some? ==> s.file.value.owner in s.procs && s.file.value.gen < s.nextGen)
  }

  ghost predicate AtMostOneHolder(s: State) {
    forall p, q :: Holds(s, p) && Holds(s, q) ==> p == q
  }

  /** Mutual exclusion, and the holder's own generation is the one on disk. */
  ghost predicate Exclusive(s: State) {
    forall p :: InLock(s, p) ==>
      && s.file.Some? && s.file.value.owner == p
      && s.file.value.gen == s.procs[p].pc.gen
      && forall q :: InLock(s, q) ==> q == p
  }

  /** A reclaiming remove deletes the generation it read, and read a written pid. */
  ghost predicate Careful(s: State, l: Label)
    requires Enabled(s, l)
  {
    l.Remove? && s.file.Some? ==>
      var read := s.procs[l.p].pc.read;
      read.Some? && read.value.gen == s.file.value.gen && read.value.content > 0
  }

  /** A reclaiming remove spares the file of a launcher that is inside the lock. */
  ghost predicate Sparing(s: State, l: Label)
    requires Enabled(s, l)
  {
    l.Remove? && s.file.Some? ==> !InLock(s, s.file.value.owner)
  }

  ghost predicate CarefulRun(s: State, ls: seq<Label>)
    requires Run(s, ls)
    decreases |ls|
  {
    ls == [] || (Careful(s, ls[0]) && CarefulRun(Apply(s, ls[0]), ls[1..]))
  }

  ghost predicate SparingRun(s: State, ls: seq<Label>)
    requires Run(s, ls)
    decreases |ls|
  {
    ls == [] || (Sparing(s, ls[0]) && SparingRun(Apply(s, ls[0]), ls[1..]))
  }

  /* ---------- the invariant ---------- */

  /** What is known of a lock file that was on disk at some time. */
  ghost predicate FileOk(s: State, f: LockFile) {
    && f.gen < s.nextGen
    && f.owner in s.procs
    && (Live(s, f.owner) && f.content > 0 ==> f.content == s.procs[f.owner].pid)
    && (s.file.Some? && s.file.value.gen == f.gen ==> s.file.value.owner == f.owner)
  }

  ghost predicate ProcOk(s: State, p: nat)
    requires p in s.procs
  {
    var pc := s.procs[p].pc;
    && (InLock(s, p) ==> s.file.Some? && s.file.value.owner == p && s.file.value.gen == pc.gen)
    && (Live(s, p) && pc.Seen? && pc.read.Some? ==> FileOk(s, pc.read.value))
    && (Live(s, p) && pc.Removing? && pc.read.Some? ==>
          && FileOk(s, pc.read.value)
          && (pc.read.value.content > 0 ==> !Live(s, pc.read.value.owner)))
  }

  ghost predicate Inv(s: State) {
    && (s.file.Some? ==> FileOk(s, s.file.value))
    && (forall p :: p in s.procs ==> ProcOk(s, p))
    && DistinctPids(s)
  }

  ghost predicate DistinctPids(s: State) {
    forall p, q :: Live(s, p) && Live(s, q) && s.procs[p].pid == s.procs[q].pid ==> p == q
  }

  lemma InvImpliesExclusive(s: State)
    requires Inv(s)
    ensures Exclusive(s)
    ensures AtMostOneHolder(s)
  {
    forall p | InLock(s, p)
      ensures s.file.Some? && s.file.value.owner == p && s.file.value.gen == s.procs[p].pc.gen
    {
      assert ProcOk(s, p);
    }
    forall p, q | Holds(s, p) && Holds(s, q)
      ensures p == q
    {
      assert InLock(s, p) && InLock(s, q);
    }
  }

  lemma InitInv(s: State)
    requires Init(s)
    ensures Inv(s)
  {
  }

  /* ---------- safety over every run ---------- */

  lemma CarefulIsSparing(s: State, l: Label)
    requires Inv(s) && Enabled(s, l) && Careful(s, l)
    ensures Sparing(s, l)
  {
    if l.Remove? && s.file.Some? {
      assert ProcOk(s, l.p);
    }
  }

  lemma StepKeepsProcs(s: State, l: Label)
    requires Inv(s) && Enabled(s, l) && Sparing(s, l)
    ensures forall q :: q in Apply(s, l).procs ==> ProcOk(Apply(s, l), q)
  {
    var t := Apply(s, l);
    assert l.Spawn? || ProcOk(s, l.p);
    forall q | q in t.procs
      ensures ProcOk(t, q)
    {
      assert q != l.p ==> ProcOk(s, q);
    }
  }

  lemma StepKeepsDistinctPids(s: State, l: Label)
    requires DistinctPids(s) && Enabled(s, l)
    ensures DistinctPids(Apply(s, l))
  {
    var t := Apply(s, l);
    forall p, q | Live(t, p) && Live(t, q) && t.procs[p].pid == t.procs[q].pid
      ensures p == q
    {
      if l.Spawn? && (p == l.p || q == l.p) {
        assert !PidLive(s, l.pid);
      } else {
        assert Live(s, p) && Live(s, q) && s.procs[p].pid == s.procs[q].pid;
      }
    }
  }

  lemma StepKeepsInv(s: State, l: Label)
    requires Inv(s) && Enabled(s, l) && Sparing(s, l)
    ensures Inv(Apply(s, l))
  {
    StepKeepsProcs(s, l);
    StepKeepsDistinctPids(s, l);
    assert l.Spawn? || ProcOk(s, l.p);
  }

  lemma {:induction false} RunKeepsInv(s: State, ls: seq<Label>)
    requires Inv(s) && Run(s, ls) && SparingRun(s, ls)
    ensures Inv(Final(s, ls))
    decreases |ls|
  {
    if ls != [] {
      StepKeepsInv(s, ls[0]);
      RunKeepsInv(Apply(s, ls[0]), ls[1..]);
    }
  }

  lemma {:induction false} CarefulRunIsSparing(s: State, ls: seq<Label>)
    requires Inv(s) && Run(s, ls) && CarefulRun(s, ls)
    ensures SparingRun(s, ls)
    decreases |ls|
  {
    if ls != [] {
      CarefulIsSparing(s, ls[0]);
      StepKeepsInv(s, ls[0]);
      CarefulRunIsSparing(Apply(s, ls[0]), ls[1..]);
    }
  }

  /** Mutual exclusion: whatever the interleaving, crashes and faults, a run whose
    * reclaims are careful ends with at most one launcher in the lock, and the
    * file on disk is the one that launcher created. */
  lemma CarefulRunsAreExclusive(s: State, ls: seq<Label>)
    requires Init(s) && Run(s, ls) && CarefulRun(s, ls)
    ensures Exclusive(Final(s, ls))
    ensures AtMostOneHolder(Final(s, ls))
  {
    InitInv(s);
    CarefulRunIsSparing(s, ls);
    RunKeepsInv(s, ls);
    InvImpliesExclusive(Final(s, ls));
  }

  /* ---------- the exact condition ---------- */

  /** No careful continuation of `s` ever puts two launchers in the lock. */
  ghost predicate Safe(s: State) {
    forall ls :: Run(s, ls) && CarefulRun(s, ls) ==> AtMostOneHolder(Final(s, ls))
  }

  lemma InvIsSafe(s: State)
    requires Inv(s)
    ensures Safe(s)
  {
    forall ls | Run(s, ls) && CarefulRun(s, ls)
      ensures AtMostOneHolder(Final(s, ls))
    {
      CarefulRunIsSparing(s, ls);
      RunKeepsInv(s, ls);
      InvImpliesExclusive(Final(s, ls));
    }
  }

  /** A natural number above every member of a finite set. */
  ghost function Above(xs: set<nat>): (n: nat)
    ensures forall x :: x in xs ==> x < n
  {
    if xs == {} then 0
    else
      var x :| x in xs;
      var rest := Above(xs - {x});
      assert forall y :: y in xs ==> y == x || y in xs - {x};
      if x < rest then rest else x + 1
  }

  lemma FreshLauncher(s: State, avoid: int) returns (q: nat, pid: nat)
    ensures Enabled(s, Spawn(q, pid)) && pid != avoid
  {
    q := Above(s.procs.Keys);
    var pids := set p | p in s.procs :: s.procs[p].pid;
    pid := Above(pids) + 1 + (if avoid > 0 then avoid else 0);
    forall p | Live(s, p)
      ensures s.procs[p].pid != pid
    {
      assert s.procs[p].pid in pids;
    }
  }

  /** Once the file of a launcher inside the lock is gone, a newcomer walks in
    * and both end up holding the lock. */
  lemma LostFileIsUnsafe(s: State, o: nat)
    requires InLock(s, o) && s.file.None?
    ensures !Safe(s)
  {
    var q, pid := FreshLauncher(s, 0);
    var s1 := Apply(s, Spawn(q, pid));
    var s2 := Apply(s1, Create(q));
    var s3 := Apply(s2, WritePid(q));
    assert Holds(s3, q) && q != o && InLock(s3, o);
    assert Run(s3, []) && CarefulRun(s3, []) && Final(s3, []) == s3;
    if Holds(s3, o) {
      UnsafeFrom3(s, Spawn(q, pid), Create(q), WritePid(q), []);
    } else {
      var s4 := Apply(s3, WritePid(o));
      assert Holds(s4, q) && Holds(s4, o);
      assert Run(s4, []) && CarefulRun(s4, []) && Final(s4, []) == s4;
      RunCons(s3, WritePid(o), []);
      UnsafeFrom3(s, Spawn(q, pid), Create(q), WritePid(q), [WritePid(o)]);
    }
  }

  lemma RunCons(s: State, l: Label, ls: seq<Label>)
    requires Enabled(s, l) && Run(Apply(s, l), ls)
    ensures Run(s, [l] + ls) && Final(s, [l] + ls) == Final(Apply(s, l), ls)
    ensures Careful(s, l) && CarefulRun(Apply(s, l), ls) ==> CarefulRun(s, [l] + ls)
  {
    assert ([l] + ls)[1..] == ls;
  }

  lemma UnsafeFrom3(s: State, a: Label, b: Label, c: Label, ls: seq<Label>)
    requires Enabled(s, a) && !a.Remove?
    requires var s1 := Apply(s, a); Enabled(s1, b) && !b.Remove?
    requires var s2 := Apply(Apply(s, a), b); Enabled(s2, c) && !c.Remove?
    requires var s3 := Apply(Apply(Apply(s, a), b), c);
             Run(s3, ls) && CarefulRun(s3, ls) && !AtMostOneHolder(Final(s3, ls))
    ensures !Safe(s)
  {
    var s1 := Apply(s, a);
    var s2 := Apply(s1, b);
    RunCons(s2, c, ls);
    RunCons(s1, b, [c] + ls);
    RunCons(s, a, [b] + ([c] + ls));
    assert Run(s, [a] + ([b] + ([c] + ls)));
  }

  /** The exact condition for one reclaim: the lock stays safe after it exactly
    * when the deleted file does not belong to a launcher inside the lock. */
  lemma ReclaimSafeIff(s: State, p: nat)
    requires Inv(s) && Enabled(s, Remove(p))
    ensures Safe(Apply(s, Remove(p))) <==> Sparing(s, Remove(p))
  {
    if Sparing(s, Remove(p)) {
      StepKeepsInv(s, Remove(p));
      InvIsSafe(Apply(s, Remove(p)));
    } else {
      assert s.procs[p].pc.Removing?;
      LostFileIsUnsafe(Apply(s, Remove(p)), s.file.value.owner);
    }
  }

  /** Every state the run passes through after its first step is safe. */
  ghost predicate AlwaysSafe(s: State, ls: seq<Label>)
    requires Run(s, ls)
    decreases |ls|
  {
    ls == [] || (Safe(Apply(s, ls[0])) && AlwaysSafe(Apply(s, ls[0]), ls[1..]))
  }

  /** The exact condition for a whole run, with no hypothesis on its reclaims. */
  lemma {:induction false} RunSafeIff(s: State, ls: seq<Label>)
    requires Inv(s) && Run(s, ls)
    ensures AlwaysSafe(s, ls) <==> SparingRun(s, ls)
    decreases |ls|
  {
    if ls != [] {
      if Sparing(s, ls[0]) {
        StepKeepsInv(s, ls[0]);
        InvIsSafe(Apply(s, ls[0]));
        RunSafeIff(Apply(s, ls[0]), ls[1..]);
      } else {
        ReclaimSafeIff(s, ls[0].p);
      }
    }
  }

  /* ---------- both halves of the hypothesis are needed ---------- */

  /** Each reclaim deletes the generation it read, but may have read no pid. */
  ghost predicate SameGeneration(s: State, l: Label) {
    Enabled(s, l) && l.Remove? && s.file.Some? ==>
      s.procs[l.p].pc.read.Some? && s.procs[l.p].pc.read.value.gen == s.file.value.gen
  }

  /** Each reclaim read a written pid, but may delete a later generation. */
  ghost predicate ReadWrittenPid(s: State, l: Label) {
    Enabled(s, l) && l.Remove? && s.file.Some? ==> ReadPid(s.procs[l.p].pc.read) > 0
  }

  ghost predicate EachStep(s: State, ls: seq<Label>, ok: (State, Label) -> bool)
    requires Run(s, ls)
    decreases |ls|
  {
    ls == [] || (ok(s, ls[0]) && EachStep(Apply(s, ls[0]), ls[1..], ok))
  }

  lemma Before(s: State, l: Label, ls: seq<Label>, ok: (State, Label) -> bool)
    requires Enabled(s, l) && ok(s, l)
    requires Run(Apply(s, l), ls) && EachStep(Apply(s, l), ls, ok)
    ensures Run(s, [l] + ls) && Final(s, [l] + ls) == Final(Apply(s, l), ls)
    ensures EachStep(s, [l] + ls, ok)
  {
    assert ([l] + ls)[1..] == ls;
  }

  lemma FourSteps(s: State, a: Label, b: Label, c: Label, d: Label, ok: (State, Label) -> bool)
    requires Enabled(s, a) && ok(s, a)
    requires var s1 := Apply(s, a); Enabled(s1, b) && ok(s1, b)
    requires var s2 := Apply(Apply(s, a), b); Enabled(s2, c) && ok(s2, c)
    requires var s3 := Apply(Apply(Apply(s, a), b), c); Enabled(s3, d) && ok(s3, d)
    ensures var ls := [a, b, c, d];
            && Run(s, ls) && EachStep(s, ls, ok)
            && Final(s, ls) == Apply(Apply(Apply(Apply(s, a), b), c), d)
  {
    var s1 := Apply(s, a);
    var s2 := Apply(s1, b);
    var s3 := Apply(s2, c);
    Before(s3, d, [], ok);
    Before(s2, c, [d], ok);
    Before(s1, b, [c, d], ok);
    Before(s, a, [b, c, d], ok);
    assert [d] == [d] + [] && [c, d] == [c] + [d] && [b, c, d] == [b] + [c, d];
    assert [a, b, c, d] == [a] + [b, c, d];
  }

  /** A launcher that reads the file between its creation and the write of the
    * pid reclaims the lock of a live launcher, and the lock is no longer safe. */
  lemma EmptyReadHazard(s: State, o: nat, p: nat) returns (ls: seq<Label>)
    requires Live(s, o) && s.procs[o].pc.Created?
    requires s.file == Some(LockFile(s.procs[o].pc.gen, o, 0))
    requires Live(s, p) && s.procs[p].pc.Opening?
    ensures Run(s, ls) && EachStep(s, ls, SameGeneration) && !Safe(Final(s, ls))
  {
    ls := [FindExisting(p), Read(p), JudgeDead(p), Remove(p)];
    FourSteps(s, FindExisting(p), Read(p), JudgeDead(p), Remove(p), SameGeneration);
    LostFileIsUnsafe(Final(s, ls), o);
  }

  /** Two launchers have judged the same dead holder; the slower one removes the
    * lock the faster one has taken meanwhile, and the lock is no longer safe. */
  lemma LateRemoveHazard(s: State, fast: nat, slow: nat) returns (ls: seq<Label>)
    requires fast != slow && s.file.Some? && s.file.value.content > 0
    requires Live(s, fast) && s.procs[fast].pc == Removing(0, s.file)
    requires Live(s, slow) && s.procs[slow].pc == Removing(0, s.file)
    ensures Run(s, ls) && EachStep(s, ls, ReadWrittenPid) && !Safe(Final(s, ls))
  {
    ls := [Remove(fast), Create(fast), WritePid(fast), Remove(slow)];
    FourSteps(s, Remove(fast), Create(fast), WritePid(fast), Remove(slow), ReadWrittenPid);
    LostFileIsUnsafe(Final(s, ls), fast);
  }

  lemma {:induction false} RunAppend(s: State, ls: seq<Label>, ms: seq<Label>, ok: (State, Label) -> bool)
    requires Run(s, ls) && EachStep(s, ls, ok)
    requires Run(Final(s, ls), ms) && EachStep(Final(s, ls), ms, ok)
    ensures Run(s, ls + ms) && EachStep(s, ls + ms, ok)
    ensures Final(s, ls + ms) == Final(Final(s, ls), ms)
    decreases |ls|
  {
    if ls == [] {
      assert ls + ms == ms;
    } else {
      RunAppend(Apply(s, ls[0]), ls[1..], ms, ok);
      assert (ls + ms)[1..] == ls[1..] + ms;
    }
  }

  /** The first hazard happens: two launchers starting in an empty directory. */
  lemma EmptyReadHappens() returns (ls: seq<Label>)
    ensures var s := State(map[], None, 0);
            Init(s) && Run(s, ls) && EachStep(s, ls, SameGeneration) && !Safe(Final(s, ls))
  {
    var s := State(map[], None, 0);
    var s1 := Apply(s, Spawn(0, 10));
    var s2 := Apply(s1, Create(0));
    var s3 := Apply(s2, Spawn(1, 11));
    Before(s2, Spawn(1, 11), [], SameGeneration);
    Before(s1, Create(0), [Spawn(1, 11)] + [], SameGeneration);
    var head := [Create(0)] + ([Spawn(1, 11)] + []);
    Before(s, Spawn(0, 10), head, SameGeneration);
    var tail := EmptyReadHazard(s3, 0, 1);
    ls := [Spawn(0, 10)] + head + tail;
    RunAppend(s, [Spawn(0, 10)] + head, tail, SameGeneration);
  }

  /** The second hazard happens: two launchers find a dead holder's lock. */
  lemma LateRemoveHappens() returns (ls: seq<Label>)
    ensures var s := State(map[9 := Proc(9, false, Failed)], Some(LockFile(0, 9, 9)), 1);
            Init(s) && Run(s, ls) && EachStep(s, ls, ReadWrittenPid) && !Safe(Final(s, ls))
  {
    var s := State(map[9 := Proc(9, false, Failed)], Some(LockFile(0, 9, 9)), 1);
    var first := JudgesDead(s, 0, 10);
    var s1 := Final(s, first);
    var second := JudgesDead(s1, 1, 11);
    RunAppend(s, first, second, ReadWrittenPid);
    var tail := LateRemoveHazard(Final(s1, second), 0, 1);
    RunAppend(s, first + second, tail, ReadWrittenPid);
    ls := first + second + tail;
  }

  lemma JudgesDead(s: State, p: nat, pid: nat) returns (ls: seq<Label>)
    requires Enabled(s, Spawn(p, pid))
    requires s.file.Some? && s.file.value.content != pid && !PidLive(s, s.file.value.content)
    ensures Run(s, ls) && EachStep(s, ls, ReadWrittenPid)
    ensures Final(s, ls) == s.(procs := s.procs[p := Proc(pid, true, Removing(0, s.file))])
  {
    ls := [Spawn(p, pid), FindExisting(p), Read(p), JudgeDead(p)];
    FourSteps(s, Spawn(p, pid), FindExisting(p), Read(p), JudgeDead(p), ReadWrittenPid);
    assert s.procs[p := Proc(pid, true, Opening(0))][p := Proc(pid, true, Reading(0))]
             [p := Proc(pid, true, Seen(0, s.file))][p := Proc(pid, true, Removing(0, s.file))]
           == s.procs[p := Proc(pid, true, Removing(0, s.file))];
  }

  /* ---------- a lone contender ---------- */

  /** A step of launcher `p` in which no system call fails and the process table
    * answers truthfully. Releasing is left to whoever holds the lock. */
  ghost predicate Honest(s: State, l: Label, p: nat) {
    && Enabled(s, l) && l.p == p
    && (l.Create? || l.FindExisting? || l.WritePid? || l.Read? || l.JudgeDead? || l.Remove?
        || (l.JudgeAlive? && PidLive(s, ReadPid(s.procs[p].pc.read))))
  }

  ghost predicate HonestRun(s: State, ls: seq<Label>, p: nat)
    decreases |ls|
  {
    ls == [] || (Honest(s, ls[0], p) && HonestRun(Apply(s, ls[0]), ls[1..], p))
  }

  ghost function Ends(s: State, ls: seq<Label>, p: nat): State
    requires HonestRun(s, ls, p)
    decreases |ls|
  {
    if ls == [] then s else Ends(Apply(s, ls[0]), ls[1..], p)
  }

  /** `p` alone is alive and stands at one of the points of its first attempt, or
    * at the open of its second one after a reclaim. */
  ghost predicate Alone(s: State, p: nat) {
    && Live(s, p) && (forall q :: Live(s, q) ==> q == p)
    && match s.procs[p].pc
       case Opening(n) => n == 0 || (n == 1 && s.file.None?)
       case Created(g) => s.file.Some? && s.file.value.gen == g && s.file.value.owner == p
       case Holding(g) => s.file.Some? && s.file.value.gen == g && s.file.value.content == s.procs[p].pid
       case Reading(n) => n == 0 && s.file.Some?
       case Seen(n, read) => n == 0 && s.file.Some? && read == s.file
       case Removing(n, read) => n == 0 && s.file.Some?
       case _ => false
  }

  /** How many steps `p` is away from holding the lock. */
  ghost function Distance(s: State, p: nat): nat
    requires p in s.procs
  {
    match s.procs[p].pc
    case Opening(_) => if s.file.Some? then 6 else 2
    case Reading(_) => 5
    case Seen(_, _) => 4
    case Removing(_, _) => 3
    case Created(_) => 1
    case _ => 0
  }

  /** The recorded process id is the contender's own. */
  ghost predicate OwnPidRecorded(s: State, p: nat)
    requires p in s.procs
  {
    s.file.Some? && s.file.value.content == s.procs[p].pid
  }

  /** The recorded id no longer matters, or is not the contender's own. */
  ghost predicate Clear(s: State, p: nat)
    requires p in s.procs
  {
    s.procs[p].pc.Removing? || s.procs[p].pc.Created? || s.procs[p].pc.Holding? || !OwnPidRecorded(s, p)
  }

  /** Nothing is left for `p` to do inside `AcquireLock`. */
  ghost predicate Finished(s: State, p: nat) {
    forall l :: !Honest(s, l, p)
  }

  /** However an undisturbed call of `AcquireLock` by `p` goes, it ends with the lock. */
  ghost predicate Acquires(s: State, p: nat) {
    forall ls :: HonestRun(s, ls, p) && Finished(Ends(s, ls, p), p) ==> Holds(Ends(s, ls, p), p)
  }

  lemma AloneStep(s: State, l: Label, p: nat)
    requires Alone(s, p) && Honest(s, l, p) && s.procs[p].pid > 0 && Clear(s, p)
    ensures var t := Apply(s, l);
            && Alone(t, p) && Distance(t, p) == Distance(s, p) - 1
            && t.procs[p].pid == s.procs[p].pid && Clear(t, p)
  {
    var t := Apply(s, l);
    assert forall q :: Live(t, q) ==> Live(s, q);
  }

  lemma AloneMoves(s: State, p: nat)
    requires Alone(s, p) && s.procs[p].pid > 0 && !s.procs[p].pc.Holding?
    ensures !Finished(s, p)
  {
    var pc := s.procs[p].pc;
    var l := match pc
      case Opening(_) => if s.file.Some? then FindExisting(p) else Create(p)
      case Created(_) => WritePid(p)
      case Reading(_) => Read(p)
      case Seen(_, _) =>
        if ReadPid(s.file) > 0 && PidLive(s, ReadPid(s.file)) then JudgeAlive(p) else JudgeDead(p)
      case _ => Remove(p);
    assert Honest(s, l, p);
  }

  lemma {:induction false} AloneRun(s: State, ls: seq<Label>, p: nat)
    requires Alone(s, p) && s.procs[p].pid > 0 && Clear(s, p) && HonestRun(s, ls, p)
    ensures var t := Ends(s, ls, p);
            Alone(t, p) && t.procs[p].pid > 0 && Distance(t, p) + |ls| == Distance(s, p)
    decreases |ls|
  {
    if ls != [] {
      AloneStep(s, ls[0], p);
      AloneRun(Apply(s, ls[0]), ls[1..], p);
    }
  }

  /** A contender that meets no live rival and whose system calls succeed always
    * gets the lock within its two attempts, whatever a dead holder left behind,
    * except when the recorded process id happens to be its own (a launcher that
    * is process 1 of a container, say): then it never does. */
  lemma LoneContenderAcquiresIff(s: State, p: nat)
    requires Live(s, p) && (forall q :: Live(s, q) ==> q == p)
    requires s.procs[p].pid > 0 && s.procs[p].pc == Opening(0)
    ensures Acquires(s, p) <==> !OwnPidRecorded(s, p)
    ensures !OwnPidRecorded(s, p) ==> forall ls :: HonestRun(s, ls, p) ==> |ls| <= 6
  {
    if !OwnPidRecorded(s, p) {
      forall ls | HonestRun(s, ls, p)
        ensures |ls| <= 6 && (Finished(Ends(s, ls, p), p) ==> Holds(Ends(s, ls, p), p))
      {
        AloneRun(s, ls, p);
        if !Holds(Ends(s, ls, p), p) {
          AloneMoves(Ends(s, ls, p), p);
        }
      }
    } else {
      OwnPidBlocks(s, p);
    }
  }

  lemma OwnPidBlocks(s: State, p: nat)
    requires Alone(s, p) && s.procs[p].pid > 0 && s.procs[p].pc == Opening(0) && OwnPidRecorded(s, p)
    ensures !Acquires(s, p)
  {
    var s1 := Apply(s, FindExisting(p));
    var s2 := Apply(s1, Read(p));
    assert Live(s2, p) && PidLive(s2, s2.procs[p].pid);
    var s3 := Apply(s2, JudgeAlive(p));
    assert HonestRun(s3, [], p) && Ends(s3, [], p) == s3;
    HonestCons(s2, JudgeAlive(p), [], p);
    HonestCons(s1, Read(p), [JudgeAlive(p)] + [], p);
    HonestCons(s, FindExisting(p), [Read(p)] + ([JudgeAlive(p)] + []), p);
    assert Finished(s3, p) && !Holds(s3, p);
    var ls := [FindExisting(p)] + ([Read(p)] + ([JudgeAlive(p)] + []));
    assert HonestRun(s, ls, p) && Ends(s, ls, p) == s3;
  }

  lemma HonestCons(s: State, l: Label, ls: seq<Label>, p: nat)
    requires Honest(s, l, p) && HonestRun(Apply(s, l), ls, p)
    ensures HonestRun(s, [l] + ls, p) && Ends(s, [l] + ls, p) == Ends(Apply(s, l), ls, p)
  {
    assert ([l] + ls)[1..] == ls;
  }

  /* ---------- a newcomer takes over from a dead holder ---------- */

  /** A sparing step that neither releases nor crashes. */
  ghost predicate Quiet(s: State, l: Label) {
    Enabled(s, l) && Sparing(s, l) && !l.Release? && !l.ReleaseError? && !l.Crash?
  }

  /** The seven steps of launcher `q` that reclaim and then take the lock. */
  ghost function TakeOver(q: nat, pid: nat): seq<Label> {
    [Spawn(q, pid), FindExisting(q), Read(q), JudgeDead(q)] + [Remove(q), Create(q), WritePid(q)]
  }

  lemma NewcomerTakesOver(s: State, q: nat, pid: nat)
    requires Enabled(s, Spawn(q, pid))
    requires s.file.Some? && !InLock(s, s.file.value.owner) && s.file.value.owner != q
    requires s.file.value.content <= 0 || (!PidLive(s, s.file.value.content) && s.file.value.content != pid)
    ensures Run(s, TakeOver(q, pid)) && EachStep(s, TakeOver(q, pid), Quiet)
    ensures Final(s, TakeOver(q, pid)) ==
            State(s.procs[q := Proc(pid, true, Holding(s.nextGen))], Some(LockFile(s.nextGen, q, pid)), s.nextGen + 1)
  {
    var first := [Spawn(q, pid), FindExisting(q), Read(q), JudgeDead(q)];
    FourSteps(s, Spawn(q, pid), FindExisting(q), Read(q), JudgeDead(q), Quiet);
    var t := s.(procs := s.procs[q := Proc(pid, true, Removing(0, s.file))]);
    assert Final(s, first) == t;
    ReclaimAndCreate(t, q);
    RunAppend(s, first, [Remove(q), Create(q), WritePid(q)], Quiet);
  }

  lemma ReclaimAndCreate(s: State, q: nat)
    requires Live(s, q) && s.procs[q].pc == Removing(0, s.file)
    requires s.file.Some? && !InLock(s, s.file.value.owner)
    ensures var ls := [Remove(q), Create(q), WritePid(q)];
            && Run(s, ls) && EachStep(s, ls, Quiet)
            && Final(s, ls) == State(s.procs[q := s.procs[q].(pc := Holding(s.nextGen))],
                                     Some(LockFile(s.nextGen, q, s.procs[q].pid)), s.nextGen + 1)
  {
    var s1 := Apply(s, Remove(q));
    var s2 := Apply(s1, Create(q));
    Before(s2, WritePid(q), [], Quiet);
    Before(s1, Create(q), [WritePid(q)] + [], Quiet);
    Before(s, Remove(q), [Create(q)] + ([WritePid(q)] + []), Quiet);
    assert [Remove(q), Create(q), WritePid(q)] == [Remove(q)] + ([Create(q)] + ([WritePid(q)] + []));
  }

  /** Appending one step to a run. */
  lemma {:induction false} RunSnoc(s: State, ls: seq<Label>, l: Label)
    requires Run(s, ls) && Enabled(Final(s, ls), l)
    ensures Run(s, ls + [l]) && Final(s, ls + [l]) == Apply(Final(s, ls), l)
    decreases |ls|
  {
    if ls == [] {
      assert [l][1..] == [];
    } else {
      RunSnoc(Apply(s, ls[0]), ls[1..], l);
      assert (ls + [l])[1..] == ls[1..] + [l];
    }
  }
}
