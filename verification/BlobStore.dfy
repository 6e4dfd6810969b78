/** The content-addressed cache. First digests and paths, then `PutStream` by many
  * processes at once as a step system with crashes and a concurrent `clean`, then
  * the calls of one process on the `Cache` object. SHA-256 is an arbitrary function
  * into 64 lowercase hexadecimal digits. */
module BlobStore {
  import opened Wrappers
  import opened Faults
  import Text

  type Bytes = seq<bv8>

  /** A file `<root>/blobs/<dir>/<name>`. An algorithm name holds no slash (section
    * "Digests" of the OCI Image Specification descriptor document), so the pair is
    * the path. */
  datatype Path = Path(dir: string, name: string)

  type Files = map<Path, Bytes>

  predicate HexDigit(c: char) {
    '0' <= c <= '9' || 'a' <= c <= 'f' || 'A' <= c <= 'F'
  }

  /** `hex.DecodeString` accepts. */
  predicate Decodable(s: string) {
    |s| % 2 == 0 && forall i :: 0 <= i < |s| ==> HexDigit(s[i])
  }

  /** `splitDigest`, which is also where `BlobPath` puts the digest. */
  function BlobPath(digest: string): Option<Path> {
    var cut := Text.Cut(digest, ':');
    if !cut.found || cut.before == "" || cut.after == "" || !Decodable(cut.after) then None
    else Some(Path(cut.before, cut.after))
  }

  lemma HexDigitIff(c: char)
    ensures HexDigit(c) <==> c in "0123456789abcdefABCDEF"
  {
    assert "0123456789abcdefABCDEF" == "0123456789" + "abcdef" + "ABCDEF";
    if '0' <= c <= '9' {
      assert c == "0123456789"[(c - '0') as nat];
    } else if 'a' <= c <= 'f' {
      assert c == "abcdef"[(c - 'a') as nat];
    } else if 'A' <= c <= 'F' {
      assert c == "ABCDEF"[(c - 'A') as nat];
    }
  }

  /** The digests that have a path: an algorithm, a colon, and an even number of
    * hexadecimal digits in either case. */
  ghost predicate NamesBlob(digest: string, path: Path) {
    && digest == path.dir + [':'] + path.name && path.dir != "" && ':' !in path.dir
    && path.name != "" && |path.name| % 2 == 0
    && forall i :: 0 <= i < |path.name| ==> path.name[i] in "0123456789abcdefABCDEF"
  }

  /** A digest's path is its algorithm and its digits, and nothing else has one. */
  lemma BlobPathIff(digest: string, path: Path)
    ensures BlobPath(digest) == Some(path) <==> NamesBlob(digest, path)
  {
    forall c
      ensures HexDigit(c) <==> c in "0123456789abcdefABCDEF"
    {
      HexDigitIff(c);
    }
    if BlobPath(digest).Some? {
      Text.CutParts(digest, ':');
    }
    if NamesBlob(digest, path) {
      Text.CutAt(path.dir, path.name, ':');
    }
  }

  lemma Sha256Path(h: string)
    requires Text.LowerHex64(h)
    ensures BlobPath("sha256:" + h) == Some(Path("sha256", h))
  {
    assert "sha256:" + h == "sha256" + [':'] + h;
    Text.CutAt("sha256", h, ':');
  }

  lemma Sha256Digest(digest: string)
    requires BlobPath(digest).Some? && BlobPath(digest).value.dir == "sha256"
    ensures digest == "sha256:" + BlobPath(digest).value.name
  {
    Text.CutParts(digest, ':');
    assert "sha256:" == "sha256" + [':'];
  }

  function Has(files: Files, digest: string): bool {
    BlobPath(digest).Some? && BlobPath(digest).value in files
  }

  /** A name `os.CreateTemp` makes from `.tmp-*`. */
  predicate TempName(name: string) {
    ".tmp-" <= name
  }

  lemma BlobIsNoTemp(digest: string)
    requires BlobPath(digest).Some?
    ensures !TempName(BlobPath(digest).value.name)
  {
    assert ".tmp-"[0] == '.' && !HexDigit('.');
  }

  /** Every file under a final name is in the sha256 area, is named by 64 lowercase
    * hexadecimal digits, and hashes to its name. */
  ghost predicate Intact(sha: Bytes -> string, files: Files) {
    forall p :: p in files && !TempName(p.name) ==>
      p.dir == "sha256" && Text.LowerHex64(p.name) && sha(files[p]) == p.name
  }

  ghost predicate HexSums(sha: Bytes -> string) {
    forall b :: Text.LowerHex64(sha(b))
  }

  /** The map from names to bytes that the store stands for. */
  function Committed(files: Files): map<Path, Bytes> {
    map p | p in files && !TempName(p.name) :: files[p]
  }

  /* ---------- many processes at once ---------- */

  /** Where a call of `PutStream` stands; `hashed` is what the hash has been fed. */
  datatype PC =
    | Called
    | Missing(final: Path)
    | Copying(final: Path, temp: Path, hashed: Bytes)
    | Copied(final: Path, temp: Path, hashed: Bytes)
    | Matched(final: Path, temp: Path, hashed: Bytes)
    | Cleaning(temp: Path, result: Option<Path>)
    | Returned(result: Option<Path>)

  datatype Put = Put(digest: string, pc: PC)

  datatype State = State(files: Files, puts: map<nat, Put>, usedTemps: set<string>)

  datatype Label =
    | Call(p: nat, digest: string)
    | Stat(p: nat)
    | MakeTemp(p: nat, name: string)
    | Chunk(p: nat, data: Bytes)
    | CopyFails(p: nat, partial: Bytes)
    | CloseTemp(p: nat)
    | Compare(p: nat)
    | Rename(p: nat)
    | Fail(p: nat)
    | RemoveTemp(p: nat)
    | KeepTemp(p: nat)
    | Crash(p: nat)
    | Unlink(path: Path)

  ghost predicate Enabled(s: State, l: Label) {
    if l.Call? then l.p !in s.puts
    else if l.Unlink? then l.path in s.files
    else
      && l.p in s.puts
      && var pc := s.puts[l.p].pc;
      match l
      case Stat(_) => pc.Called?
      case MakeTemp(_, name) =>
        // The system picks a name that no file has, and never picks one twice.
        pc.Missing? && TempName(name) && name !in s.usedTemps && Path(pc.final.dir, name) !in s.files
      case Chunk(_, _) => pc.Copying?
      case CopyFails(_, _) => pc.Copying?
      case CloseTemp(_) => pc.Copying?
      case Compare(_) => pc.Copied?
      case Rename(_) => pc.Matched?
      case Fail(_) => pc.Missing? || pc.Copied? || pc.Matched?
      case RemoveTemp(_) => pc.Cleaning?
      case KeepTemp(_) => pc.Cleaning?
      case Crash(_) => true
  }

  function Goto(s: State, p: nat, pc: PC): State
    requires p in s.puts
  {
    s.(puts := s.puts[p := s.puts[p].(pc := pc)])
  }

  /** A write to an open temporary file; once unlinked, it is no longer in `files`. */
  function Append(files: Files, path: Path, data: Bytes): Files {
    if path in files then files[path := files[path] + data] else files
  }

  ghost function Apply(sha: Bytes -> string, s: State, l: Label): State
    requires Enabled(s, l)
  {
    match l
    case Call(p, digest) => s.(puts := s.puts[p := Put(digest, Called)])
    case Unlink(path) => s.(files := s.files - {path})
    case Crash(p) => s.(puts := s.puts - {p})
    case Stat(p) =>
      var path := BlobPath(s.puts[p].digest);
      if path.None? || path.value.dir != "sha256" then Goto(s, p, Returned(None))
      else if path.value in s.files then Goto(s, p, Returned(path))
      else Goto(s, p, Missing(path.value))
    case MakeTemp(p, name) =>
      var final := s.puts[p].pc.final;
      var temp := Path(final.dir, name);
      Goto(s, p, Copying(final, temp, [])).(files := s.files[temp := []], usedTemps := s.usedTemps + {name})
    case Chunk(p, data) =>
      var pc := s.puts[p].pc;
      Goto(s, p, Copying(pc.final, pc.temp, pc.hashed + data)).(files := Append(s.files, pc.temp, data))
    case CopyFails(p, partial) =>
      var pc := s.puts[p].pc;
      Goto(s, p, Cleaning(pc.temp, None)).(files := Append(s.files, pc.temp, partial))
    case CloseTemp(p) =>
      var pc := s.puts[p].pc;
      Goto(s, p, Copied(pc.final, pc.temp, pc.hashed))
    case Compare(p) =>
      var pc := s.puts[p].pc;
      Goto(s, p, if sha(pc.hashed) == pc.final.name then Matched(pc.final, pc.temp, pc.hashed) else Cleaning(pc.temp, None))
    case Rename(p) =>
      var pc := s.puts[p].pc;
      if pc.temp in s.files then
        Goto(s, p, Cleaning(pc.temp, Some(pc.final))).(files := (s.files - {pc.temp})[pc.final := s.files[pc.temp]])
      else Goto(s, p, Cleaning(pc.temp, None))
    case Fail(p) =>
      var pc := s.puts[p].pc;
      Goto(s, p, if pc.Missing? then Returned(None) else Cleaning(pc.temp, None))
    case RemoveTemp(p) =>
      var pc := s.puts[p].pc;
      Goto(s, p, Returned(pc.result)).(files := s.files - {pc.temp})
    case KeepTemp(p) => Goto(s, p, Returned(s.puts[p].pc.result))
  }

  predicate HasTemp(pc: PC) {
    pc.Copying? || pc.Copied? || pc.Matched? || pc.Cleaning?
  }

  /** What a call is going to return, or has returned. */
  function ResultOf(pc: PC): Option<Path> {
    if pc.Cleaning? || pc.Returned? then pc.result else None
  }

  ghost predicate PutOk(sha: Bytes -> string, s: State, p: nat)
    requires p in s.puts
  {
    var pc := s.puts[p].pc;
    && (pc.Missing? || pc.Copying? || pc.Copied? || pc.Matched? ==>
          pc.final.dir == "sha256" && BlobPath(s.puts[p].digest) == Some(pc.final))
    && (HasTemp(pc) ==> TempName(pc.temp.name) && pc.temp.name in s.usedTemps && pc.temp.dir == "sha256")
    && (pc.Copying? || pc.Copied? || pc.Matched? ==> (pc.temp in s.files ==> s.files[pc.temp] == pc.hashed))
    && (pc.Matched? ==> sha(pc.hashed) == pc.final.name)
    && (ResultOf(pc).Some? ==> ResultOf(pc).value.dir == "sha256" && BlobPath(s.puts[p].digest) == ResultOf(pc))
  }

  ghost predicate TempsDistinct(s: State) {
    forall p, q | p in s.puts && q in s.puts && HasTemp(s.puts[p].pc) && HasTemp(s.puts[q].pc) ::
      s.puts[p].pc.temp == s.puts[q].pc.temp ==> p == q
  }

  ghost predicate Inv(sha: Bytes -> string, s: State) {
    && Intact(sha, s.files)
    && (forall p :: p in s.puts ==> PutOk(sha, s, p))
    && TempsDistinct(s)
  }

  /** A call's temporary file was its own before the step, or is new with it. */
  lemma WhoseTemp(sha: Bytes -> string, s: State, l: Label, p: nat)
    requires Inv(sha, s) && Enabled(s, l)
    requires p in Apply(sha, s, l).puts && HasTemp(Apply(sha, s, l).puts[p].pc)
    ensures var temp := Apply(sha, s, l).puts[p].pc.temp;
            || (l.MakeTemp? && p == l.p && temp.name !in s.usedTemps)
            || (p in s.puts && HasTemp(s.puts[p].pc) && temp == s.puts[p].pc.temp && temp.name in s.usedTemps)
  {
    if p in s.puts {
      assert PutOk(sha, s, p);
    }
  }

  lemma StepKeepsTemps(sha: Bytes -> string, s: State, l: Label)
    requires Inv(sha, s) && Enabled(s, l)
    ensures TempsDistinct(Apply(sha, s, l))
  {
    var t := Apply(sha, s, l);
    forall p, q | p in t.puts && q in t.puts && HasTemp(t.puts[p].pc) && HasTemp(t.puts[q].pc)
      ensures t.puts[p].pc.temp == t.puts[q].pc.temp ==> p == q
    {
      WhoseTemp(sha, s, l, p);
      WhoseTemp(sha, s, l, q);
    }
  }

  lemma FinalIsNoTemp(sha: Bytes -> string, s: State, p: nat)
    requires p in s.puts && PutOk(sha, s, p)
    ensures var pc := s.puts[p].pc;
            pc.Missing? || pc.Copying? || pc.Copied? || pc.Matched? ==> !TempName(pc.final.name)
  {
    if BlobPath(s.puts[p].digest).Some? {
      BlobIsNoTemp(s.puts[p].digest);
    }
  }

  /** A step leaves the temporary files of other processes alone, or unlinks one. */
  lemma OthersTempFile(sha: Bytes -> string, s: State, l: Label, path: Path)
    requires Inv(sha, s) && Enabled(s, l)
    requires TempName(path.name) && path.name in s.usedTemps
    requires !l.Call? && !l.Unlink? && HasTemp(s.puts[l.p].pc) ==> path != s.puts[l.p].pc.temp
    ensures var t := Apply(sha, s, l);
            path in t.files ==> path in s.files && t.files[path] == s.files[path]
  {
    if !l.Call? && !l.Unlink? {
      FinalIsNoTemp(sha, s, l.p);
    }
  }

  lemma OwnPut(sha: Bytes -> string, s: State, l: Label)
    requires Inv(sha, s) && Enabled(s, l) && !l.Call? && !l.Unlink? && !l.Crash?
    ensures PutOk(sha, Apply(sha, s, l), l.p)
  {
    assert PutOk(sha, s, l.p);
    FinalIsNoTemp(sha, s, l.p);
  }

  lemma StepKeepsPuts(sha: Bytes -> string, s: State, l: Label)
    requires Inv(sha, s) && Enabled(s, l)
    ensures forall p :: p in Apply(sha, s, l).puts ==> PutOk(sha, Apply(sha, s, l), p)
  {
    var t := Apply(sha, s, l);
    forall p | p in t.puts
      ensures PutOk(sha, t, p)
    {
      if !l.Unlink? && p == l.p {
        if !l.Call? {
          OwnPut(sha, s, l);
        }
      } else {
        assert p in s.puts && t.puts[p] == s.puts[p] && PutOk(sha, s, p);
        if HasTemp(s.puts[p].pc) {
          OthersTempFile(sha, s, l, s.puts[p].pc.temp);
        }
      }
    }
  }

  /** The committed map does not see temporary files. */
  lemma TempsAreInvisible(files: Files, temp: Path, data: Bytes)
    requires TempName(temp.name)
    ensures Committed(files[temp := data]) == Committed(files) == Committed(files - {temp})
  {
  }

  lemma RenameOnCommitted(files: Files, temp: Path, final: Path)
    requires TempName(temp.name) && !TempName(final.name) && temp in files
    ensures Committed((files - {temp})[final := files[temp]]) == Committed(files)[final := files[temp]]
  {
  }

  lemma RenameStep(sha: Bytes -> string, s: State, p: nat)
    requires Inv(sha, s) && Enabled(s, Rename(p))
    ensures var pc := s.puts[p].pc;
            var after := Committed(Apply(sha, s, Rename(p)).files);
            && sha(pc.hashed) == pc.final.name && pc.final.dir == "sha256"
            && after == if pc.temp in s.files then Committed(s.files)[pc.final := pc.hashed] else Committed(s.files)
  {
    assert PutOk(sha, s, p);
    var pc := s.puts[p].pc;
    FinalIsNoTemp(sha, s, p);
    if pc.temp in s.files {
      RenameOnCommitted(s.files, pc.temp, pc.final);
    }
  }

  lemma OtherStep(sha: Bytes -> string, s: State, l: Label)
    requires Inv(sha, s) && Enabled(s, l) && !l.Rename? && !l.Unlink? && !l.Call?
    ensures Committed(Apply(sha, s, l).files) == Committed(s.files)
  {
    assert PutOk(sha, s, l.p);
    var pc := s.puts[l.p].pc;
    if l.MakeTemp? {
      TempsAreInvisible(s.files, Path(pc.final.dir, l.name), []);
    } else if HasTemp(pc) {
      var data := if l.Chunk? then l.data else if l.CopyFails? then l.partial else [];
      TempsAreInvisible(s.files, pc.temp, if pc.temp in s.files then s.files[pc.temp] + data else []);
    }
  }

  /** What a step can do to the committed map: nothing, or bind one name to bytes
    * that hash to it (a rename), or unbind one name (a clean). */
  lemma StepOnCommitted(sha: Bytes -> string, s: State, l: Label)
    requires Inv(sha, s) && Enabled(s, l)
    ensures var before := Committed(s.files);
            var after := Committed(Apply(sha, s, l).files);
            || after == before
            || (l.Rename? && var pc := s.puts[l.p].pc;
                after == before[pc.final := pc.hashed] && sha(pc.hashed) == pc.final.name && pc.final.dir == "sha256")
            || (l.Unlink? && after == before - {l.path})
  {
    if l.Unlink? {
      if TempName(l.path.name) {
        TempsAreInvisible(s.files, l.path, []);
      }
    } else if l.Rename? {
      RenameStep(sha, s, l.p);
    } else if !l.Call? {
      OtherStep(sha, s, l);
    }
  }

  lemma CommittedIsIntact(sha: Bytes -> string, files: Files)
    ensures Intact(sha, files) <==> forall p :: p in Committed(files) ==>
              p.dir == "sha256" && Text.LowerHex64(p.name) && sha(Committed(files)[p]) == p.name
  {
  }

  lemma StepKeepsInv(sha: Bytes -> string, s: State, l: Label)
    requires HexSums(sha) && Inv(sha, s) && Enabled(s, l)
    ensures Inv(sha, Apply(sha, s, l))
  {
    StepKeepsTemps(sha, s, l);
    StepKeepsPuts(sha, s, l);
    StepOnCommitted(sha, s, l);
    CommittedIsIntact(sha, s.files);
    CommittedIsIntact(sha, Apply(sha, s, l).files);
  }

  ghost predicate Run(sha: Bytes -> string, s: State, ls: seq<Label>)
    decreases |ls|
  {
    ls == [] || (Enabled(s, ls[0]) && Run(sha, Apply(sha, s, ls[0]), ls[1..]))
  }

  ghost function Final(sha: Bytes -> string, s: State, ls: seq<Label>): State
    requires Run(sha, s, ls)
    decreases |ls|
  {
    if ls == [] then s else Final(sha, Apply(sha, s, ls[0]), ls[1..])
  }

  /** Store integrity: whatever the interleaving of calls, crashes and cleaning, no
    * partial or mismatched content is ever visible under a final name. */
  lemma {:induction false} StoreStaysIntact(sha: Bytes -> string, s: State, ls: seq<Label>)
    requires HexSums(sha) && Inv(sha, s) && Run(sha, s, ls)
    ensures Inv(sha, Final(sha, s, ls)) && Intact(sha, Final(sha, s, ls).files)
    decreases |ls|
  {
    if ls != [] {
      StepKeepsInv(sha, s, ls[0]);
      StoreStaysIntact(sha, Apply(sha, s, ls[0]), ls[1..]);
    }
  }

  const EMPTY := State(map[], map[], {})

  /** The same for every store that starts out empty. */
  lemma EveryStoreIsIntact(sha: Bytes -> string, ls: seq<Label>)
    requires HexSums(sha) && Run(sha, EMPTY, ls)
    ensures Intact(sha, Final(sha, EMPTY, ls).files)
  {
    StoreStaysIntact(sha, EMPTY, ls);
  }

  /** Every call that returns this path, or is about to, finds it bound. */
  ghost predicate Bound(s: State, path: Path) {
    forall p :: p in s.puts && ResultOf(s.puts[p].pc) == Some(path) ==> path in s.files && !TempName(path.name)
  }

  lemma StepKeepsBound(sha: Bytes -> string, s: State, l: Label, path: Path)
    requires Inv(sha, s) && Enabled(s, l) && Bound(s, path) && l != Unlink(path)
    ensures Bound(Apply(sha, s, l), path)
  {
    if !l.Call? && !l.Unlink? {
      assert PutOk(sha, s, l.p);
      FinalIsNoTemp(sha, s, l.p);
      if l.Stat? && BlobPath(s.puts[l.p].digest).Some? {
        BlobIsNoTemp(s.puts[l.p].digest);
      }
    }
  }

  lemma {:induction false} RunKeepsBound(sha: Bytes -> string, s: State, ls: seq<Label>, path: Path)
    requires HexSums(sha) && Inv(sha, s) && Run(sha, s, ls) && Bound(s, path)
    requires forall i :: 0 <= i < |ls| ==> ls[i] != Unlink(path)
    ensures Bound(Final(sha, s, ls), path)
    decreases |ls|
  {
    if ls != [] {
      StepKeepsInv(sha, s, ls[0]);
      StepKeepsBound(sha, s, ls[0], path);
      RunKeepsBound(sha, Apply(sha, s, ls[0]), ls[1..], path);
    }
  }

  /** What success means to a caller: whatever others do, the path a call returned is
    * its digest's and holds bytes that hash to it, until somebody unlinks it. */
  lemma SuccessStaysBound(sha: Bytes -> string, ls: seq<Label>, p: nat, path: Path)
    requires HexSums(sha) && Run(sha, EMPTY, ls)
    requires forall i :: 0 <= i < |ls| ==> ls[i] != Unlink(path)
    requires p in Final(sha, EMPTY, ls).puts && Final(sha, EMPTY, ls).puts[p].pc == Returned(Some(path))
    ensures var t := Final(sha, EMPTY, ls);
            && BlobPath(t.puts[p].digest) == Some(path) && path.dir == "sha256"
            && path in t.files && sha(t.files[path]) == path.name
  {
    StoreStaysIntact(sha, EMPTY, ls);
    RunKeepsBound(sha, EMPTY, ls, path);
    assert PutOk(sha, Final(sha, EMPTY, ls), p);
  }

  predicate Collide(sha: Bytes -> string, a: Bytes, b: Bytes) {
    a != b && sha(a) == sha(b)
  }

  /** Bound names never change their bytes, short of a hash collision: concurrent
    * writers of one digest agree. */
  lemma BlobsAreImmutable(sha: Bytes -> string, s: State, ls: seq<Label>, path: Path, before: Bytes, after: Bytes)
    requires HexSums(sha) && Inv(sha, s) && Run(sha, s, ls)
    requires path in Committed(s.files) && Committed(s.files)[path] == before
    requires path in Committed(Final(sha, s, ls).files) && Committed(Final(sha, s, ls).files)[path] == after
    ensures before == after || Collide(sha, before, after)
  {
    StoreStaysIntact(sha, s, ls);
    CommittedIsIntact(sha, s.files);
    CommittedIsIntact(sha, Final(sha, s, ls).files);
  }

  /** A call that has matched its bytes and finds its temporary file still there
    * commits: its name is bound to them the moment it renames. */
  lemma RenameCommits(sha: Bytes -> string, s: State, p: nat)
    requires Inv(sha, s) && Enabled(s, Rename(p)) && s.puts[p].pc.temp in s.files
    ensures var t := Apply(sha, s, Rename(p));
            && BlobPath(s.puts[p].digest) == Some(s.puts[p].pc.final)
            && t.puts[p].pc == Cleaning(s.puts[p].pc.temp, Some(s.puts[p].pc.final))
            && s.puts[p].pc.final in t.files && sha(t.files[s.puts[p].pc.final]) == s.puts[p].pc.final.name
  {
    assert PutOk(sha, s, p);
  }

  /* ---------- one process ---------- */

  /** Only `p` moves, and nothing is unlinked from outside. */
  ghost predicate OwnRun(sha: Bytes -> string, s: State, ls: seq<Label>, t: State, p: nat) {
    && Run(sha, s, ls) && Final(sha, s, ls) == t
    && forall i :: 0 <= i < |ls| ==> !ls[i].Unlink? && !ls[i].Crash? && ls[i].p == p
  }

  lemma {:induction false} RunSnoc(sha: Bytes -> string, s: State, ls: seq<Label>, l: Label)
    requires Run(sha, s, ls) && Enabled(Final(sha, s, ls), l)
    ensures Run(sha, s, ls + [l]) && Final(sha, s, ls + [l]) == Apply(sha, Final(sha, s, ls), l)
    decreases |ls|
  {
    if ls == [] {
      assert [l][1..] == [];
    } else {
      RunSnoc(sha, Apply(sha, s, ls[0]), ls[1..], l);
      assert (ls + [l])[1..] == ls[1..] + [l];
    }
  }

  lemma Extend(sha: Bytes -> string, s: State, ls: seq<Label>, t: State, l: Label, p: nat)
    requires OwnRun(sha, s, ls, t, p)
    requires Enabled(t, l) && !l.Unlink? && !l.Crash? && l.p == p
    ensures OwnRun(sha, s, ls + [l], Apply(sha, t, l), p)
  {
    RunSnoc(sha, s, ls, l);
  }

  function Flatten(chunks: seq<Bytes>): Bytes {
    if chunks == [] then [] else chunks[0] + Flatten(chunks[1..])
  }

  lemma {:induction false} FlattenSnoc(chunks: seq<Bytes>, last: Bytes)
    ensures Flatten(chunks + [last]) == Flatten(chunks) + last
  {
    if chunks == [] {
      assert [last][1..] == [];
    } else {
      FlattenSnoc(chunks[1..], last);
      assert (chunks + [last])[1..] == chunks[1..] + [last];
    }
  }

  /** What a reader delivers, chunk by chunk, and whether it ends without an error. */
  datatype Stream = Stream(chunks: seq<Bytes>, endsWell: bool)

  class Cache {
    const sha: Bytes -> string
    var files: Files

    ghost predicate Valid()
      reads this
    {
      HexSums(sha) && Intact(sha, files)
    }

    constructor (sha: Bytes -> string)
      requires HexSums(sha)
      ensures Valid() && files == map[] && this.sha == sha
    {
      this.sha, files := sha, map[];
    }

    /** `Verify` accepts exactly the blobs that are there and hash to their name. */
    method Verify(digest: string) returns (ok: bool)
      ensures ok <==> exists path :: NamesBlob(digest, path) && path in files && sha(files[path]) == path.name
    {
      if BlobPath(digest).Some? {
        BlobPathIff(digest, BlobPath(digest).value);
      }
      forall q | NamesBlob(digest, q)
        ensures BlobPath(digest) == Some(q)
      {
        BlobPathIff(digest, q);
      }
      var path := BlobPath(digest);
      if path.None? || path.value !in files {
        return false;
      }
      ok := sha(files[path.value]) == path.value.name;
    }

    /** The run so far stands at this point of the call `p`, and the files are its files. */
    ghost predicate At(s: State, ls: seq<Label>, t: State, p: nat, digest: string, pc: PC)
      reads this
    {
      OwnRun(sha, s, ls, t, p) && t.files == files && p in t.puts && t.puts[p] == Put(digest, pc)
    }

    /** One write of `io.Copy`; a failing one may leave part of the chunk. */
    method WriteChunk(final: Path, temp: Path, data: Bytes, hashed: Bytes, calm: bool,
                      ghost s: State, ghost ls: seq<Label>, ghost t: State, ghost p: nat, ghost digest: string)
      returns (ok: bool, ghost ms: seq<Label>, ghost u: State)
      requires temp in files && files[temp] == hashed && At(s, ls, t, p, digest, Copying(final, temp, hashed))
      modifies this`files
      ensures files.Keys == old(files.Keys) && files - {temp} == old(files) - {temp}
      ensures At(s, ms, u, p, digest, if ok then Copying(final, temp, hashed + data) else Cleaning(temp, None))
      ensures ok ==> files[temp] == hashed + data
      ensures calm ==> ok
    {
      ok := Works(calm);
      var n: nat :| n <= |data|;
      var written := if ok then data else data[..n];
      var l := if ok then Chunk(p, written) else CopyFails(p, written);
      Extend(sha, s, ls, t, l, p);
      ms, u := ls + [l], Apply(sha, t, l);
      files := files[temp := files[temp] + written];
    }

    /** The close after the copy; `whole` tells whether the reader ended well. */
    method CloseFile(final: Path, temp: Path, hashed: Bytes, whole: bool, calm: bool,
                     ghost s: State, ghost ls: seq<Label>, ghost t: State, ghost p: nat, ghost digest: string)
      returns (ok: bool, ghost ms: seq<Label>, ghost u: State)
      requires temp in files && files[temp] == hashed && At(s, ls, t, p, digest, Copying(final, temp, hashed))
      ensures At(s, ms, u, p, digest, if ok then Copied(final, temp, hashed) else Cleaning(temp, None))
      ensures (ok ==> whole) && (calm ==> ok == whole)
    {
      ok := Works(calm);
      ok := ok && whole;
      var l := if ok then CloseTemp(p) else CopyFails(p, []);
      Extend(sha, s, ls, t, l, p);
      assert files[temp] + [] == files[temp];
      ms, u := ls + [l], Apply(sha, t, l);
    }

    /** The copy of `io.Copy(io.MultiWriter(tmp, h), r)` and the close: what reached the
      * file is what the hash was fed. */
    method CopyInto(final: Path, temp: Path, r: Stream, calm: bool,
                    ghost s: State, ghost ls: seq<Label>, ghost t: State, ghost p: nat, ghost digest: string)
      returns (ok: bool, hashed: Bytes, ghost ms: seq<Label>, ghost u: State)
      requires temp in files && files[temp] == [] && At(s, ls, t, p, digest, Copying(final, temp, []))
      modifies this`files
      ensures files.Keys == old(files.Keys) && files - {temp} == old(files) - {temp}
      ensures At(s, ms, u, p, digest, if ok then Copied(final, temp, hashed) else Cleaning(temp, None))
      ensures ok ==> r.endsWell && hashed == Flatten(r.chunks) && files[temp] == hashed
      ensures calm ==> ok == r.endsWell
    {
      hashed, ms, u := [], ls, t;
      var i := 0;
      while i < |r.chunks|
        invariant 0 <= i <= |r.chunks| && hashed == Flatten(r.chunks[..i])
        invariant temp in files && files[temp] == hashed
        invariant files.Keys == old(files.Keys) && files - {temp} == old(files) - {temp}
        invariant At(s, ms, u, p, digest, Copying(final, temp, hashed))
      {
        ok, ms, u := WriteChunk(final, temp, r.chunks[i], hashed, calm, s, ms, u, p, digest);
        if !ok {
          return;
        }
        assert r.chunks[..i + 1] == r.chunks[..i] + [r.chunks[i]];
        FlattenSnoc(r.chunks[..i], r.chunks[i]);
        hashed := hashed + r.chunks[i];
        i := i + 1;
      }
      assert r.chunks[..i] == r.chunks;
      ok, ms, u := CloseFile(final, temp, hashed, r.endsWell, calm, s, ms, u, p, digest);
    }

    /** The deferred removal; its error is dropped. */
    method Discard(temp: Path, result: Option<Path>, calm: bool,
                   ghost s: State, ghost ls: seq<Label>, ghost t: State, ghost p: nat, ghost digest: string)
      returns (ghost ms: seq<Label>, ghost u: State)
      requires At(s, ls, t, p, digest, Cleaning(temp, result))
      modifies this`files
      ensures At(s, ms, u, p, digest, Returned(result))
      ensures files == old(files) - {temp} || (!calm && files == old(files))
    {
      var works := Works(calm);
      var l := if works then RemoveTemp(p) else KeepTemp(p);
      Extend(sha, s, ls, t, l, p);
      ms, u := ls + [l], Apply(sha, t, l);
      if works {
        files := files - {temp};
      }
    }

    /** `PutStream` from the comparison on. */
    method Commit(final: Path, temp: Path, hashed: Bytes, calm: bool,
                  ghost s: State, ghost ls: seq<Label>, ghost t: State, ghost p: nat, ghost digest: string)
      returns (done: bool, ghost ms: seq<Label>, ghost u: State)
      requires temp in files && files[temp] == hashed && At(s, ls, t, p, digest, Copied(final, temp, hashed))
      modifies this`files
      ensures At(s, ms, u, p, digest, Cleaning(temp, if done then Some(final) else None))
      ensures done ==> sha(hashed) == final.name && files == (old(files) - {temp})[final := hashed]
      ensures !done ==> files == old(files)
      ensures calm ==> done == (sha(hashed) == final.name)
    {
      Extend(sha, s, ls, t, Compare(p), p);
      ms, u := ls + [Compare(p)], Apply(sha, t, Compare(p));
      done := false;
      if sha(hashed) == final.name {
        done := Works(calm);
        var l := if done then Rename(p) else Fail(p);
        Extend(sha, s, ms, u, l, p);
        ms, u := ms + [l], Apply(sha, u, l);
        if done {
          files := (files - {temp})[final := files[temp]];
        }
      }
    }

    /** `PutStream` up to the temporary file: the path when there is no need for one,
      * an error, or nothing yet. */
    method Begin(digest: string, tempName: string, calm: bool, ghost s: State, ghost p: nat)
      returns (over: Option<Option<Path>>, ghost ls: seq<Label>, ghost t: State)
      requires TempName(tempName) && Path("sha256", tempName) !in files
      requires s.files == files && p !in s.puts && tempName !in s.usedTemps
      modifies this`files
      ensures over.Some? ==> files == old(files) && At(s, ls, t, p, digest, Returned(over.value))
      ensures over.Some? && over.value.Some? ==> over.value == BlobPath(digest) && Has(files, digest)
      ensures over.None? ==>
                && BlobPath(digest).Some? && BlobPath(digest).value.dir == "sha256" && !old(Has(files, digest))
                && files == old(files)[Path("sha256", tempName) := []]
                && At(s, ls, t, p, digest, Copying(BlobPath(digest).value, Path("sha256", tempName), []))
      ensures BlobPath(digest).Some? && BlobPath(digest).value.dir == "sha256" && (calm || old(Has(files, digest))) ==>
                over == if old(Has(files, digest)) then Some(BlobPath(digest)) else None
    {
      ls, t := [], s;
      Extend(sha, s, ls, t, Call(p, digest), p);
      ls, t := ls + [Call(p, digest)], Apply(sha, t, Call(p, digest));
      Extend(sha, s, ls, t, Stat(p), p);
      ls, t := ls + [Stat(p)], Apply(sha, t, Stat(p));
      var final := BlobPath(digest);
      if final.None? || final.value.dir != "sha256" {
        over := Some(None);
        return;
      }
      if final.value in files {
        over := Some(final);
        return;
      }
      var works := Works(calm);
      var l := if works then MakeTemp(p, tempName) else Fail(p);
      Extend(sha, s, ls, t, l, p);
      ls, t := ls + [l], Apply(sha, t, l);
      if !works {
        over := Some(None);
        return;
      }
      files := files[Path("sha256", tempName) := []];
      over := None;
    }

    /** `PutStream` once the temporary file is there. */
    method Fill(final: Path, temp: Path, r: Stream, calm: bool,
                ghost s: State, ghost ls: seq<Label>, ghost t: State, ghost p: nat, ghost digest: string, ghost before: Files)
      returns (result: Option<Path>, ghost ms: seq<Label>, ghost u: State)
      requires files == before[temp := []] && temp !in before && temp != final
      requires At(s, ls, t, p, digest, Copying(final, temp, []))
      modifies this`files
      ensures At(s, ms, u, p, digest, Returned(result))
      ensures result.Some? ==> result == Some(final) && r.endsWell && sha(Flatten(r.chunks)) == final.name
      ensures result.Some? ==> files == before[final := Flatten(r.chunks)]
      ensures result.None? ==> files - {temp} == before && (calm ==> files == before)
      ensures calm ==> (result.Some? <==> r.endsWell && sha(Flatten(r.chunks)) == final.name)
    {
      assert files - {temp} == before;
      var ok, hashed;
      ok, hashed, ms, u := CopyInto(final, temp, r, calm, s, ls, t, p, digest);
      if ok {
        ok, ms, u := Commit(final, temp, hashed, calm, s, ms, u, p, digest);
      }
      result := if ok then Some(final) else None;
      assert ok ==> files - {temp} == files;
      ms, u := Discard(temp, result, calm, s, ms, u, p, digest);
    }

    /** `PutStream`, undisturbed, is a run of the step system that ends in what it
      * returns. It is all or nothing, and never under a wrong name. */
    method PutStream(digest: string, r: Stream, tempName: string, calm: bool, ghost s: State, ghost p: nat)
      returns (result: Option<Path>, ghost ls: seq<Label>, ghost t: State)
      requires Valid() && TempName(tempName) && Path("sha256", tempName) !in files
      requires s.files == files && p !in s.puts && tempName !in s.usedTemps
      modifies this`files
      ensures Valid()
      ensures At(s, ls, t, p, digest, Returned(result))
      ensures result.Some? ==> result == BlobPath(digest) && result.value in files && result.value.dir == "sha256"
      ensures old(Has(files, digest)) ==> result == BlobPath(digest) && files == old(files)
      ensures result.None? ==> Committed(files) == Committed(old(files))
      ensures result.Some? && !old(Has(files, digest)) ==>
                && r.endsWell && sha(Flatten(r.chunks)) == result.value.name
                && Committed(files) == Committed(old(files))[result.value := Flatten(r.chunks)]
      ensures calm && !old(Has(files, digest)) ==>
                (result.Some? <==> r.endsWell && BlobPath(digest) == Some(Path("sha256", sha(Flatten(r.chunks)))))
      ensures calm && result.None? ==> files == old(files)
      ensures result.Some? ==> digest == "sha256:" + result.value.name
      ensures calm && r.endsWell && digest == "sha256:" + sha(Flatten(r.chunks)) ==>
                result == Some(Path("sha256", sha(Flatten(r.chunks))))
    {
      Sha256Path(sha(Flatten(r.chunks)));
      if BlobPath(digest).Some? && BlobPath(digest).value.dir == "sha256" {
        Sha256Digest(digest);
      }
      if BlobPath(digest).Some? {
        BlobIsNoTemp(digest);
      }
      var over;
      over, ls, t := Begin(digest, tempName, calm, s, p);
      if over.Some? {
        result := over.value;
        return;
      }
      result, ls, t := Fill(BlobPath(digest).value, Path("sha256", tempName), r, calm, s, ls, t, p, digest, old(files));
      FilledOnCommitted(sha, old(files), files, Path("sha256", tempName), BlobPath(digest).value, Flatten(r.chunks), result);
    }
  }

  /** What a filled or abandoned temporary file means for the committed map. */
  lemma FilledOnCommitted(sha: Bytes -> string, before: Files, after: Files, temp: Path, final: Path, data: Bytes, result: Option<Path>)
    requires Intact(sha, before) && TempName(temp.name) && temp !in before && !TempName(final.name)
    requires result.Some? ==> after == before[final := data]
    requires result.Some? ==> sha(data) == final.name && Text.LowerHex64(final.name) && final.dir == "sha256"
    requires result.None? ==> after - {temp} == before
    ensures Intact(sha, after)
    ensures Committed(after) == if result.Some? then Committed(before)[final := data] else Committed(before)
  {
    if result.None? {
      SameButTemp(after, before, temp);
      CommittedIsIntact(sha, before);
      CommittedIsIntact(sha, after);
    }
  }

  lemma SameButTemp(f: Files, g: Files, temp: Path)
    requires TempName(temp.name) && temp !in g && f - {temp} == g
    ensures Committed(f) == Committed(g) == Committed(f - {temp})
  {
    assert forall p :: p in f && p != temp ==> p in f - {temp} && f[p] == (f - {temp})[p];
  }
}
