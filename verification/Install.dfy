/** `EnsureQEMU`: download, check, staged extraction, removal, rename, marker, by one
  * runner that may crash after any micro-step and be started again.
  *
  * A crash is a method returning early with `Crashed`; what is on disk at that
  * moment stays. I/O errors happen nondeterministically. A run is `calm` when it
  * meets neither. */
module Install {
  import opened Wrappers
  import opened Archive
  import Checksums
  import opened Faults
  import PathCleaning
  import Text

  /** What the decompressor and the tar reader make of a tarball: the headers they
    * deliver, and whether the stream ends properly after them. */
  datatype Unpacked = Unpacked(readable: bool, entries: seq<Entry>, intact: bool)

  /** What the network delivers in one run; `None` is a failed request. */
  datatype Download = Download(tarball: Option<Bytes>, sums: Option<string>)

  datatype Outcome = Crashed | Failed | Installed

  datatype Progress = Stopped | Broken | Done

  /** The facts outside the launcher: the hash, the tar reader and the asset name. */
  datatype Context = Context(sha: Bytes -> string, unpack: Bytes -> Unpacked, asset: string)

  /** Where an installed tree came from. `leftovers` is what the stage directory still
    * held when extraction began: `RemoveAll` errors are ignored there. */
  datatype Origin = Origin(tarball: Bytes, sums: string, leftovers: Tree)

  const MARKER: Path := [".extracted"]

  /** An absent directory, or a real one. */
  ghost predicate RealTree(t: Tree) {
    t == map[] || (Closed(t) && t[[]].Dir?)
  }

  function Start(stage: Tree): Tree {
    if [] in stage then stage else stage[[] := Dir]
  }

  /** The tarball passed the checksum listed for the asset. */
  predicate Checked(c: Context, tarball: Bytes, sums: string) {
    Checksums.Verifies(c.sha, tarball, Checksums.FirstSum(Text.Split(sums, '\n'), c.asset))
  }

  /** `t` is, marker aside, the complete extraction of a tarball that was checked. */
  ghost predicate Genuine(c: Context, t: Tree, o: Origin) {
    && Checked(c, o.tarball, o.sums)
    && RealTree(o.leftovers)
    && c.unpack(o.tarball).readable && c.unpack(o.tarball).intact
    && Extract(Start(o.leftovers), c.unpack(o.tarball).entries).Some?
    && t - {MARKER} == Extract(Start(o.leftovers), c.unpack(o.tarball).entries).value - {MARKER}
  }

  /** The archive unpacks into an empty directory, with no directory in the way of
    * the marker: every entry is admissible, no path is both a file and a directory,
    * and no entry needs a directory at the marker's path. */
  ghost predicate Unpackable(u: Unpacked) {
    && u.readable && u.intact && AllAdmissible(u.entries)
    && NoClash(u.entries)
    && !Implied(u.entries, [".extracted"])
  }

  lemma UnpackableIff(u: Unpacked)
    ensures Unpackable(u) <==>
              && u.readable && u.intact && Extract(EMPTY_DIR, u.entries).Some?
              && !MarkerBlocked(Extract(EMPTY_DIR, u.entries).value)
  {
    ExtractAfreshIff(u.entries);
    if Extract(EMPTY_DIR, u.entries).Some? {
      AfreshDirIff(u.entries, MARKER);
    }
  }

  predicate MarkerBlocked(t: Tree) {
    MARKER in t && t[MARKER].Dir?
  }

  /** A run that meets no crash and no I/O error installs this download. */
  ghost predicate WouldInstall(c: Context, d: Download) {
    && d.tarball.Some? && d.sums.Some?
    && Checked(c, d.tarball.value, d.sums.value)
    && Unpackable(c.unpack(d.tarball.value))
  }

  /** A genuine tree is, marker aside, the archive and nothing else exactly when the
    * archive covers, marker aside, what was left over; always so when nothing was. */
  lemma GenuineIsArchiveIff(c: Context, o: Origin, t: Tree)
    requires Genuine(c, t, o)
    ensures var es := c.unpack(o.tarball).entries;
            && Extract(EMPTY_DIR, es).Some?
            && (t - {MARKER} == Extract(EMPTY_DIR, es).value - {MARKER} <==>
                  Covered(Start(o.leftovers) - {MARKER}, Extract(EMPTY_DIR, es).value - {MARKER}))
            && (o.leftovers == map[] ==> t - {MARKER} == Extract(EMPTY_DIR, es).value - {MARKER})
  {
    var left := Start(o.leftovers);
    if o.leftovers == map[] {
      assert left == EMPTY_DIR;
    }
    HarmlessOutsideIff(left, c.unpack(o.tarball).entries, {MARKER});
  }

  lemma StagedIsGenuine(c: Context, o: Origin, t: Tree)
    requires Checked(c, o.tarball, o.sums) && RealTree(o.leftovers)
    requires var u := c.unpack(o.tarball);
             u.readable && u.intact && Extract(Start(o.leftovers), u.entries) == Some(t)
    ensures Genuine(c, t, o) && t != map[]
  {
    ExtractMeaning(Start(o.leftovers), c.unpack(o.tarball).entries, []);
  }

  /** A path with nothing below it. */
  predicate Leaf(t: Tree, p: Path) {
    p in t && forall q :: q in t ==> !(p < q)
  }

  lemma {:induction false} LeafExists(t: Tree)
    requires t != map[]
    ensures exists p :: Leaf(t, p)
    decreases |t|
  {
    var p :| p in t;
    var rest := t - {p};
    if rest == map[] {
      assert t.Keys == {p} by {
        assert forall q :: q in t ==> q == p || q in rest;
      }
      assert Leaf(t, p);
    } else {
      ShrinkingMap(t, p);
      LeafExists(rest);
      var l :| Leaf(rest, l);
      if l < p {
        forall q | q in t
          ensures !(p < q)
        {
          assert p < q ==> q in rest && l < q;
        }
        assert Leaf(t, p);
      } else {
        forall q | q in t
          ensures !(l < q)
        {
          assert q == p || q in rest;
        }
        assert Leaf(t, l);
      }
    }
  }

  lemma ShrinkingMap(t: Tree, p: Path)
    requires p in t
    ensures |t - {p}| < |t|
  {
    assert t == (t - {p})[p := t[p]];
  }

  lemma UnlinkKeepsTree(t: Tree, p: Path)
    requires RealTree(t) && Leaf(t, p)
    ensures RealTree(t - {p})
  {
    var u := t - {p};
    if u != map[] {
      var q :| q in u;
      ClosedPrefix(t, q, []);
      assert q != [] ==> [] < q;
      forall r | r in u && r != []
        ensures r[..|r| - 1] in u
      {
        assert r[..|r| - 1] < r;
      }
    }
  }

  /** `os.RemoveAll`: one unlink at a time, from the leaves up; on an error it stops
    * early, and its callers here ignore that. */
  method RemoveAll(t: Tree, calm: bool) returns (rest: Tree, up: bool)
    requires RealTree(t)
    ensures RealTree(rest)
    ensures rest.Keys <= t.Keys && forall p :: p in rest ==> rest[p] == t[p]
    ensures calm ==> up && rest == map[]
  {
    rest := t;
    while rest != map[]
      invariant RealTree(rest)
      invariant rest.Keys <= t.Keys && forall p :: p in rest ==> rest[p] == t[p]
      decreases |rest|
    {
      up := Tick(calm);
      if !up {
        return;
      }
      var ok := Works(calm);
      if !ok {
        return rest, true;
      }
      LeafExists(rest);
      var p :| p in rest && Leaf(rest, p);
      UnlinkKeepsTree(rest, p);
      ShrinkingMap(rest, p);
      rest := rest - {p};
    }
    up := true;
  }

  lemma PutFile(t: Tree, p: Path, node: Node)
    requires Closed(t) && t[[]].Dir? && p != [] && node.File?
    requires p[..|p| - 1] in t && t[p[..|p| - 1]].Dir?
    requires p in t ==> t[p].File?
    ensures Closed(t[p := node]) && t[p := node][[]].Dir?
  {
    var u := t[p := node];
    forall q | q in u && q != []
      ensures q[..|q| - 1] in u && u[q[..|q| - 1]].Dir?
    {
      assert q in t ==> q[..|q| - 1] != p;
    }
  }

  /** Making the parents of a regular entry and opening its file with truncation; the
    * file is open under `mode`. */
  method OpenEntry(t: Tree, target: Path, e: Entry, calm: bool) returns (u: Tree, mode: nat, status: Progress)
    requires RealTree(t) && t != map[] && target != []
    ensures RealTree(u) && u != map[]
    ensures status.Done? ==>
              && target in u && u[target].File?
              && var made := MkdirAll(t, target[..|target| - 1]);
                 made.Some? && WriteFile(made.value, target, e.data, e.mode) == Some(u[target := File(e.data, mode)])
    ensures calm ==>
              && !status.Stopped?
              && var made := MkdirAll(t, target[..|target| - 1]);
                 status.Done? == (made.Some? && WriteFile(made.value, target, e.data, e.mode).Some?)
  {
    mode := 0;
    var made := MkdirAll(t, target[..|target| - 1]);
    if made.None? {
      return t, mode, Broken;
    }
    MkdirAllMeaning(t, target[..|target| - 1]);
    ClosedPrefix(made.value, target[..|target| - 1], []);
    u := made.value;
    var up := Tick(calm);
    var ok := Works(calm);
    if !up || !ok {
      return u, mode, if up then Broken else Stopped;
    }
    var truncated := WriteFile(u, target, [], e.mode);
    if truncated.None? {
      return u, mode, Broken;
    }
    mode := truncated.value[target].mode;
    PutFile(u, target, File([], mode));
    u, status := truncated.value, Done;
    assert u[target := File(e.data, mode)] == made.value[target := File(e.data, mode)];
  }

  /** Writing one regular entry: open with truncation, then copy the body. */
  method WriteEntry(t: Tree, e: Entry, calm: bool) returns (u: Tree, status: Progress)
    requires RealTree(t) && t != map[] && Accepted(e) && e.kind.RegularEntry?
    ensures RealTree(u) && u != map[]
    ensures status.Done? ==> ExtractEntry(t, e) == Some(u)
    ensures calm ==> status.Done? == ExtractEntry(t, e).Some? && !status.Stopped?
  {
    var target := Target(e);
    if target == [] {
      return t, Broken;
    }
    var mode;
    u, mode, status := OpenEntry(t, target, e, calm);
    if !status.Done? {
      return;
    }
    var up := Tick(calm);
    if !up {
      return u, Stopped;
    }
    u, status := CopyBody(u, target, e, mode, calm);
  }

  /** `io.Copy` into the open file: a crash or an error may leave any part of the
    * body behind. */
  method CopyBody(t: Tree, target: Path, e: Entry, mode: nat, calm: bool) returns (u: Tree, status: Progress)
    requires Closed(t) && t[[]].Dir? && target != []
    requires target in t && t[target].File?
    ensures RealTree(u) && u != map[]
    ensures status.Done? ==> e.whole && u == t[target := File(e.data, mode)]
    ensures calm ==> status.Done? == e.whole && !status.Stopped?
  {
    var n: nat :| n <= |e.data|;
    PutFile(t, target, File(e.data[..n], mode));
    u := t[target := File(e.data[..n], mode)];
    var up := Tick(calm);
    var ok := Works(calm);
    if !up || !ok || !e.whole {
      return u, if up then Broken else Stopped;
    }
    PutFile(t, target, File(e.data, mode));
    u, status := t[target := File(e.data, mode)], Done;
  }

  predicate Accepted(e: Entry) {
    !PathCleaning.Skipped(e.name) && !PathCleaning.Unsafe(e.name)
  }

  /** One turn of the loop of `extractTarGz`. */
  method ExtractOne(t: Tree, e: Entry, calm: bool) returns (u: Tree, status: Progress)
    requires RealTree(t) && t != map[]
    ensures RealTree(u) && u != map[]
    ensures status.Done? ==> ExtractEntry(t, e) == Some(u)
    ensures calm ==> status.Done? == ExtractEntry(t, e).Some? && !status.Stopped?
  {
    u := t;
    var up := Tick(calm);
    if !up {
      return u, Stopped;
    }
    if PathCleaning.Skipped(e.name) {
      return u, Done;
    }
    if PathCleaning.Unsafe(e.name) {
      return u, Broken;
    }
    match e.kind {
      case DirEntry =>
        var made := MkdirAll(t, Target(e));
        var ok := Works(calm);
        if made.None? || !ok {
          return u, Broken;
        }
        MkdirAllMeaning(t, Target(e));
        ClosedPrefix(made.value, Target(e), []);
        return made.value, Done;
      case RegularEntry =>
        u, status := WriteEntry(t, e, calm);
      case OtherEntry =>
        return u, Done;
    }
  }

  lemma ExtractNext(t: Tree, es: seq<Entry>, i: nat)
    requires i < |es|
    ensures Extract(t, es[i..]) ==
            var next := ExtractEntry(t, es[i]);
            if next.None? then None else Extract(next.value, es[i + 1..])
  {
    assert es[i..][1..] == es[i + 1..];
  }

  /** `extractTarGz`. */
  method ExtractTarGz(from: Unpacked, stage: Tree, calm: bool) returns (t: Tree, status: Progress)
    requires RealTree(stage)
    ensures RealTree(t)
    ensures status.Done? ==> from.readable && from.intact && Extract(Start(stage), from.entries) == Some(t)
    ensures calm ==> !status.Stopped?
    ensures calm && from.readable && from.intact && Extract(Start(stage), from.entries).Some? ==> status.Done?
  {
    if !from.readable {
      return stage, Broken;
    }
    t := Start(stage);
    var i := 0;
    while i < |from.entries|
      invariant 0 <= i <= |from.entries|
      invariant RealTree(t) && t != map[]
      invariant Extract(Start(stage), from.entries) == Extract(t, from.entries[i..])
    {
      ExtractNext(t, from.entries, i);
      var u;
      u, status := ExtractOne(t, from.entries[i], calm);
      if !status.Done? {
        return u, status;
      }
      t := u;
      i := i + 1;
    }
    if !from.intact {
      return t, Broken;
    }
    status := Done;
  }

  lemma MarkerKeepsGenuine(c: Context, t: Tree, o: Origin, marker: Node)
    requires RealTree(t) && t != map[] && !MarkerBlocked(t) && Genuine(c, t, o) && marker.File?
    ensures RealTree(t[MARKER := marker]) && Genuine(c, t[MARKER := marker], o)
  {
    assert MARKER[..0] == [];
    PutFile(t, MARKER, marker);
    assert t[MARKER := marker] - {MARKER} == t - {MARKER};
  }

  class Installer {
    const context: Context
    var dest: Tree
    var stage: Tree
    var temp: Option<Bytes>
    ghost var origin: Origin

    /** Whatever happened before, a marked destination is a genuine installation. */
    ghost predicate Valid()
      reads this
    {
      && RealTree(dest) && RealTree(stage)
      && (MARKER in dest ==> Genuine(context, dest, origin))
    }

    constructor (context: Context)
      ensures Valid() && dest == map[] && stage == map[] && this.context == context
    {
      this.context := context;
      dest, stage, temp := map[], map[], None;
      origin := Origin([], "", map[]);
    }

    /** `downloadToTemp`: on a crash the partial file stays behind. */
    method DownloadToTemp(tarball: Option<Bytes>, calm: bool) returns (status: Progress)
      modifies this`temp
      ensures status.Done? ==> tarball.Some? && temp == tarball
      ensures status.Broken? ==> temp == None
      ensures calm ==> status.Done? == tarball.Some? && !status.Stopped?
    {
      temp := Some([]);
      var up := Tick(calm);
      if !up {
        return Stopped;
      }
      var ok := Works(calm);
      if tarball.None? || !ok {
        temp := None;
        return Broken;
      }
      temp := tarball;
      return Done;
    }

    /** `EnsureQEMU` after the checksum: clear the stage, extract into it, clear it again
      * on an error. */
    method Stage(from: Unpacked, calm: bool) returns (status: Progress, ghost leftovers: Tree)
      requires Valid()
      modifies this`stage
      ensures RealTree(stage)
      ensures status.Done? ==>
                && RealTree(leftovers) && from.readable && from.intact
                && Extract(Start(leftovers), from.entries) == Some(stage)
      ensures status.Done? && calm ==> leftovers == map[]
      ensures calm ==> (status.Done? && !MarkerBlocked(stage) <==> Unpackable(from))
      ensures calm ==> !status.Stopped?
    {
      UnpackableIff(from);
      leftovers := map[];
      var up;
      stage, up := RemoveAll(stage, calm);
      if !up {
        return Stopped, leftovers;
      }
      leftovers := stage;
      stage, status := ExtractTarGz(from, stage, calm);
      if status.Broken? {
        stage, up := RemoveAll(stage, calm);
        if !up {
          status := Stopped;
        }
      }
    }

    /** `EnsureQEMU` after the extraction: remove the old tree, rename the stage over it,
      * write the marker. */
    method Commit(ghost o: Origin, calm: bool) returns (status: Progress)
      requires Valid() && MARKER !in dest
      requires Genuine(context, stage, o) && stage != map[]
      modifies this`dest, this`stage, this`origin
      ensures Valid()
      ensures status.Done? ==> MARKER in dest && origin == o && !MarkerBlocked(old(stage))
      ensures calm ==> status.Done? == !MarkerBlocked(old(stage)) && !status.Stopped?
    {
      var up;
      dest, up := RemoveAll(dest, calm);
      if !up {
        return Stopped;
      }
      status := RenameStage(o, calm);
      if status.Done? {
        status := WriteMarker(calm);
      }
    }

    /** `os.Rename` of the stage, which refuses a destination that exists. */
    method RenameStage(ghost o: Origin, calm: bool) returns (status: Progress)
      requires Valid() && MARKER !in dest
      requires Genuine(context, stage, o) && stage != map[]
      modifies this`dest, this`stage, this`origin
      ensures Valid()
      ensures status.Done? ==> old(dest) == map[] && dest == old(stage) && stage == map[] && origin == o
      ensures !status.Done? ==> dest == old(dest) && stage == old(stage) && origin == old(origin)
      ensures calm ==> status.Done? == (old(dest) == map[]) && !status.Stopped?
    {
      var up := Tick(calm);
      var ok := Works(calm);
      if !up || !ok || dest != map[] {
        return if up then Broken else Stopped;
      }
      dest, stage, origin := stage, map[], o;
      status := Done;
    }

    /** `os.WriteFile` of the marker. */
    method WriteMarker(calm: bool) returns (status: Progress)
      requires Valid() && dest != map[] && Genuine(context, dest, origin)
      modifies this`dest
      ensures Valid()
      ensures status.Done? ==> MARKER in dest && !MarkerBlocked(old(dest))
      ensures calm ==> status.Done? == !MarkerBlocked(old(dest)) && !status.Stopped?
    {
      var up := Tick(calm);
      var ok := Works(calm);
      if !up || !ok || MarkerBlocked(dest) {
        return if up then Broken else Stopped;
      }
      MarkerKeepsGenuine(context, dest, origin, File([], 0x1a4));
      dest := dest[MARKER := File([], 0x1a4)];
      up := Tick(calm);
      ok := Works(calm);
      status := if !up then Stopped else if !ok then Broken else Done;
    }

    /** One run of `EnsureQEMU`. */
    method EnsureQEMU(d: Download, calm: bool) returns (r: Outcome)
      requires Valid()
      modifies this
      ensures Valid()
      ensures old(MARKER in dest) ==> r == Installed && dest == old(dest) && stage == old(stage)
      ensures r == Installed ==> [".extracted"] in dest && Genuine(context, dest, origin)
      ensures r == Installed && !old(MARKER in dest) ==>
                && d.tarball == Some(origin.tarball) && d.sums == Some(origin.sums)
                && (calm ==> origin.leftovers == map[])
      ensures r != Crashed && !old(MARKER in dest) ==> temp == None
      ensures calm && !old(MARKER in dest) ==> (r == Installed <==> WouldInstall(context, d)) && r != Crashed
    {
      if MARKER in dest {
        return Installed;
      }
      var got := DownloadToTemp(d.tarball, calm);
      if !got.Done? {
        return if got.Stopped? then Crashed else Failed;
      }
      r := InstallDownloaded(d, calm);
      if r != Crashed {
        temp := None;
      }
    }

    /** `EnsureQEMU` after the download; the deferred removal of the download is left
      * to the caller. */
    method InstallDownloaded(d: Download, calm: bool) returns (r: Outcome)
      requires Valid() && MARKER !in dest && d.tarball.Some? && temp == d.tarball
      modifies this`dest, this`stage, this`origin
      ensures Valid()
      ensures r == Installed ==>
                && MARKER in dest
                && d.tarball == Some(origin.tarball) && d.sums == Some(origin.sums)
                && (calm ==> origin.leftovers == map[])
      ensures calm ==> (r == Installed <==> WouldInstall(context, d)) && r != Crashed
    {
      if d.sums.None? {
        return Failed;
      }
      var wantSum := Checksums.ChecksumFromSums(d.sums.value, context.asset);
      if wantSum == "" || !Checksums.Verifies(context.sha, temp.value, wantSum) {
        assert wantSum == "" ==> |wantSum| != 64;
        return Failed;
      }
      var from := context.unpack(temp.value);
      var staged, leftovers := Stage(from, calm);
      if !staged.Done? {
        return if staged.Stopped? then Crashed else Failed;
      }
      ghost var o := Origin(temp.value, d.sums.value, leftovers);
      StagedIsGenuine(context, o, stage);
      var committed := Commit(o, calm);
      return if committed.Done? then Installed else if committed.Stopped? then Crashed else Failed;
    }
  }

  /** Any sequence of runs, each of which may crash or fail anywhere. */
  method Sessions(installer: Installer, runs: seq<Download>) returns (results: seq<Outcome>)
    requires installer.Valid()
    modifies installer
    ensures installer.Valid()
    ensures |results| == |runs|
    ensures forall i, j :: 0 <= i < j < |results| && results[i] == Installed ==> results[j] == Installed
    ensures Installed in results ==>
              MARKER in installer.dest && Genuine(installer.context, installer.dest, installer.origin)
  {
    results := [];
    while |results| < |runs|
      invariant |results| <= |runs| && installer.Valid()
      invariant forall i, j :: 0 <= i < j < |results| && results[i] == Installed ==> results[j] == Installed
      invariant Installed in results ==> MARKER in installer.dest
    {
      var r := installer.EnsureQEMU(runs[|results|], false);
      results := results + [r];
    }
  }
}
