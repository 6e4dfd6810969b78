/** The cache as the disk machine sees it: whatever any number of `PutStream` calls and
  * cleans do to the store, in whatever interleaving, is a history of `Disk` events. */
module CacheHistory {
  import opened Wrappers
  import opened BlobStore
  import Disk

  /** The committed blobs by name; the store's invariant puts all of them in the sha256 area. */
  function Blobs(files: Files): map<string, Bytes> {
    map name | name in (set path | path in files :: path.name) && Path("sha256", name) in Committed(files)
      :: files[Path("sha256", name)]
  }

  lemma BlobsOf(files: Files, name: string)
    ensures name in Blobs(files) <==> Path("sha256", name) in Committed(files)
  {
    if Path("sha256", name) in files {
      assert Path("sha256", name).name == name;
    }
  }

  /** A map of the committed blobs by name is `Blobs`. */
  lemma BlobsAre(files: Files, blobs: map<string, Bytes>)
    requires forall name :: name in blobs <==> Path("sha256", name) in Committed(files)
    requires forall name :: name in blobs ==> blobs[name] == Committed(files)[Path("sha256", name)]
    ensures Blobs(files) == blobs
  {
    forall name
      ensures name in Blobs(files) <==> name in blobs
    {
      BlobsOf(files, name);
    }
  }

  lemma BlobsFacts(files: Files)
    ensures forall name :: name in Blobs(files) <==> Path("sha256", name) in Committed(files)
    ensures forall name :: name in Blobs(files) ==> Blobs(files)[name] == Committed(files)[Path("sha256", name)]
  {
    forall name
      ensures name in Blobs(files) <==> Path("sha256", name) in Committed(files)
    {
      BlobsOf(files, name);
    }
  }

  /** What a step of the store is to the disk machine: a rename pulls a blob, an unlink
    * of a blob evicts it, and nothing else shows. */
  ghost function StepEvents(s: State, l: Label): seq<Disk.Event>
    requires Enabled(s, l)
  {
    if l.Rename? && s.puts[l.p].pc.temp in s.files then
      [Disk.Pull(s.puts[l.p].pc.final.name, s.puts[l.p].pc.hashed)]
    else if l.Unlink? && !TempName(l.path.name) then [Disk.Evict(l.path.name)]
    else []
  }

  lemma OneEvent(c: Disk.Context, d: Disk.State, e: Disk.Event)
    requires Disk.Possible(c, d, e)
    ensures Disk.History(c, d, [e]) && Disk.Replay(d, [e]) == Disk.Step(d, e)
  {
    assert [e][1..] == [];
  }

  lemma RenameIsPull(c: Disk.Context, s: State, p: nat, d: Disk.State)
    requires Inv(c.sha, s) && Enabled(s, Rename(p)) && d.cache == Blobs(s.files) && s.puts[p].pc.temp in s.files
    ensures var t := Apply(c.sha, s, Rename(p));
            && Disk.History(c, d, StepEvents(s, Rename(p)))
            && Disk.Replay(d, StepEvents(s, Rename(p))) == d.(cache := Blobs(t.files))
  {
    var pc := s.puts[p].pc;
    RenameStep(c.sha, s, p);
    OneEvent(c, d, Disk.Pull(pc.final.name, pc.hashed));
    assert pc.final == Path("sha256", pc.final.name);
    BlobsFacts(s.files);
    BlobsAre(Apply(c.sha, s, Rename(p)).files, d.cache[pc.final.name := pc.hashed]);
  }

  lemma UnlinkIsEvict(c: Disk.Context, s: State, path: Path, d: Disk.State)
    requires Inv(c.sha, s) && path in s.files && !TempName(path.name) && d.cache == Blobs(s.files) && d.running.None?
    ensures var t := Apply(c.sha, s, Unlink(path));
            && Disk.History(c, d, StepEvents(s, Unlink(path)))
            && Disk.Replay(d, StepEvents(s, Unlink(path))) == d.(cache := Blobs(t.files))
  {
    OneEvent(c, d, Disk.Evict(path.name));
    assert path == Path("sha256", path.name);
    BlobsFacts(s.files);
    BlobsAre(Apply(c.sha, s, Unlink(path)).files, d.cache - {path.name});
  }

  lemma SameCommitted(a: Files, b: Files)
    requires Committed(a) == Committed(b)
    ensures Blobs(a) == Blobs(b)
  {
    BlobsFacts(b);
    BlobsAre(a, Blobs(b));
  }

  lemma StepIsEvents(c: Disk.Context, s: State, l: Label, d: Disk.State)
    requires Inv(c.sha, s) && Enabled(s, l) && d.cache == Blobs(s.files)
    requires l.Unlink? ==> d.running.None?
    ensures Disk.History(c, d, StepEvents(s, l))
    ensures Disk.Replay(d, StepEvents(s, l)) == d.(cache := Blobs(Apply(c.sha, s, l).files))
  {
    var t := Apply(c.sha, s, l);
    if l.Rename? {
      if s.puts[l.p].pc.temp in s.files {
        RenameIsPull(c, s, l.p, d);
      } else {
        RenameStep(c.sha, s, l.p);
        SameCommitted(t.files, s.files);
      }
    } else if l.Unlink? {
      if TempName(l.path.name) {
        TempsAreInvisible(s.files, l.path, []);
        SameCommitted(t.files, s.files);
      } else {
        UnlinkIsEvict(c, s, l.path, d);
      }
    } else if !l.Call? {
      OtherStep(c.sha, s, l);
      SameCommitted(t.files, s.files);
    }
  }

  ghost function RunEvents(sha: Bytes -> string, s: State, ls: seq<Label>): seq<Disk.Event>
    requires Run(sha, s, ls)
    decreases |ls|
  {
    if ls == [] then [] else StepEvents(s, ls[0]) + RunEvents(sha, Apply(sha, s, ls[0]), ls[1..])
  }

  /** Every run of the store, crashes included, is a history of pulls and evictions that
    * leaves the disk machine's cache equal to the store, and touches nothing else.
    * Files are unlinked only while no machine runs. */
  lemma {:induction false} StoreRunIsHistory(c: Disk.Context, s: State, ls: seq<Label>, d: Disk.State)
    requires HexSums(c.sha) && Inv(c.sha, s) && Run(c.sha, s, ls) && d.cache == Blobs(s.files)
    requires forall i :: 0 <= i < |ls| && ls[i].Unlink? ==> d.running.None?
    ensures Disk.History(c, d, RunEvents(c.sha, s, ls))
    ensures Disk.Replay(d, RunEvents(c.sha, s, ls)) == d.(cache := Blobs(Final(c.sha, s, ls).files))
    decreases |ls|
  {
    if ls != [] {
      var t := Apply(c.sha, s, ls[0]);
      var e := d.(cache := Blobs(t.files));
      StepIsEvents(c, s, ls[0], d);
      StepKeepsInv(c.sha, s, ls[0]);
      StoreRunIsHistory(c, t, ls[1..], e);
      Disk.HistoryAppend(c, d, StepEvents(s, ls[0]), RunEvents(c.sha, t, ls[1..]));
    }
  }
}
