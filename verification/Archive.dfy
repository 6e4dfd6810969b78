/** What `extractTarGz` makes of an archive: a fold over its entries into a file tree
  * rooted at the destination, and the meaning of that fold. */
module Archive {
  import opened Wrappers
  import PathCleaning
  import Text

  type Bytes = seq<bv8>
  type Path = seq<string>

  datatype Node = Dir | File(data: Bytes, mode: nat)

  /** Paths are relative to the destination, which is `[]` itself. */
  type Tree = map<Path, Node>

  datatype Kind = DirEntry | RegularEntry | OtherEntry

  /** One tar header with its body; `whole` tells whether the body could be read to
    * its declared end. */
  datatype Entry = Entry(name: string, kind: Kind, data: Bytes, mode: nat, whole: bool)

  function Target(e: Entry): Path {
    PathCleaning.CleanParts(e.name)
  }

  /** `os.MkdirAll`: fails when a component is a regular file. */
  function MkdirAll(t: Tree, p: Path): Option<Tree> {
    if p in t then (if t[p].Dir? then Some(t) else None)
    else if p == [] then Some(t[p := Dir])
    else
      var up := MkdirAll(t, p[..|p| - 1]);
      if up.None? then None else Some(up.value[p := Dir])
  }

  /** Opening with create and truncate, then writing: an existing file keeps its mode. */
  function WriteFile(t: Tree, p: Path, data: Bytes, mode: nat): Option<Tree> {
    if p in t && t[p].Dir? then None
    else Some(t[p := File(data, if p in t then t[p].mode else mode % 0x200)])
  }

  /** One turn of the extraction loop; `None` is an error return. */
  function ExtractEntry(t: Tree, e: Entry): Option<Tree> {
    if PathCleaning.Skipped(e.name) then Some(t)
    else if PathCleaning.Unsafe(e.name) then None
    else match e.kind
      case DirEntry => MkdirAll(t, Target(e))
      case RegularEntry =>
        if Target(e) == [] || !e.whole then None
        else
          var up := MkdirAll(t, Target(e)[..|Target(e)| - 1]);
          if up.None? then None else WriteFile(up.value, Target(e), e.data, e.mode)
      case OtherEntry => Some(t)
  }

  function Extract(t: Tree, es: seq<Entry>): Option<Tree>
    decreases |es|
  {
    if es == [] then Some(t)
    else
      var next := ExtractEntry(t, es[0]);
      if next.None? then None else Extract(next.value, es[1..])
  }

  /* ---------- what the final tree holds ---------- */

  /** A real tree: it has its root, and every other node lies in a directory. */
  ghost predicate Closed(t: Tree) {
    && [] in t
    && forall p :: p in t && p != [] ==> p[..|p| - 1] in t && t[p[..|p| - 1]].Dir?
  }

  predicate Writes(e: Entry, p: Path) {
    e.kind.RegularEntry? && !PathCleaning.Skipped(e.name) && Target(e) == p
  }

  /** Some entry writes a file at `p`. */
  predicate Mentions(es: seq<Entry>, p: Path) {
    es != [] && (Writes(es[0], p) || Mentions(es[1..], p))
  }

  predicate Leads(q: Path, p: Path) {
    q <= p
  }

  /** The entry makes directory `p`, as its target or on the way to it. */
  predicate Implies(e: Entry, p: Path) {
    && !PathCleaning.Skipped(e.name)
    && ((e.kind.DirEntry? && Leads(p, Target(e))) || (e.kind.RegularEntry? && Leads(p, Target(e)) && p != Target(e)))
  }

  predicate Implied(es: seq<Entry>, p: Path) {
    es != [] && (Implies(es[0], p) || Implied(es[1..], p))
  }

  function LastData(es: seq<Entry>, p: Path): Bytes
    requires Mentions(es, p)
  {
    if Mentions(es[1..], p) then LastData(es[1..], p) else es[0].data
  }

  function FirstMode(es: seq<Entry>, p: Path): nat
    requires Mentions(es, p)
  {
    if Writes(es[0], p) then es[0].mode % 0x200 else FirstMode(es[1..], p)
  }

  /** The node an extraction onto `before` leaves at `p`: the data of the last
    * regular entry with that cleaned path under the mode of the first one (or of
    * the file that was there), a directory where an entry needs one, and otherwise
    * whatever was there. */
  ghost function Meaning(before: Tree, es: seq<Entry>, p: Path): Option<Node> {
    if Mentions(es, p) then
      Some(File(LastData(es, p),
                if p in before && before[p].File? then before[p].mode else FirstMode(es, p)))
    else if p in before then Some(before[p])
    else if Implied(es, p) then Some(Dir)
    else None
  }

  function At(t: Tree, p: Path): Option<Node> {
    if p in t then Some(t[p]) else None
  }

  lemma {:induction false} MkdirAllMeaning(t: Tree, p: Path)
    requires Closed(t) && MkdirAll(t, p).Some?
    ensures var u := MkdirAll(t, p).value;
            && Closed(u) && p in u && u[p].Dir?
            && forall q :: At(u, q) == if q in t then At(t, q) else if Leads(q, p) then Some(Dir) else None
  {
    if p in t {
      forall q | Leads(q, p)
        ensures q in t
      {
        ClosedPrefix(t, p, q);
      }
    } else {
      var up := p[..|p| - 1];
      MkdirAllMeaning(t, up);
      forall q
        ensures Leads(q, p) <==> q == p || Leads(q, up)
      {
      }
    }
  }

  lemma {:induction false} ClosedPrefix(t: Tree, p: Path, q: Path)
    requires Closed(t) && p in t && q <= p
    ensures q in t && (q != p ==> t[q].Dir?)
    decreases |p|
  {
    if q != p {
      ClosedPrefix(t, p[..|p| - 1], q);
    }
  }

  lemma LeadsToParent(p: Path, q: Path)
    requires p != []
    ensures Leads(q, p) && q != p <==> Leads(q, p[..|p| - 1])
  {
  }

  lemma RegularMeaning(t: Tree, target: Path, data: Bytes, mode: nat)
    requires Closed(t) && target != [] && MkdirAll(t, target[..|target| - 1]).Some?
    requires WriteFile(MkdirAll(t, target[..|target| - 1]).value, target, data, mode).Some?
    ensures var u := WriteFile(MkdirAll(t, target[..|target| - 1]).value, target, data, mode).value;
            && Closed(u)
            && forall p :: At(u, p) ==
                 if p == target then Some(File(data, if p in t then t[p].mode else mode % 0x200))
                 else if p in t then Some(t[p])
                 else if Leads(p, target) then Some(Dir) else None
    ensures target in t ==> t[target].File?
  {
    MkdirAllMeaning(t, target[..|target| - 1]);
    var made := MkdirAll(t, target[..|target| - 1]).value;
    assert At(made, target) == At(t, target);
    forall q
      ensures Leads(q, target) && q != target <==> Leads(q, target[..|target| - 1])
    {
      LeadsToParent(target, q);
    }
  }

  /** One entry, path by path. */
  lemma EntryMeaning(t: Tree, e: Entry)
    requires Closed(t) && ExtractEntry(t, e).Some?
    ensures var u := ExtractEntry(t, e).value;
            && Closed(u)
            && forall p :: At(u, p) ==
                 if Writes(e, p) then Some(File(e.data, if p in t then t[p].mode else e.mode % 0x200))
                 else if p in t then Some(t[p])
                 else if Implies(e, p) then Some(Dir) else None
    ensures forall p :: Writes(e, p) && p in t ==> t[p].File?
  {
    if !PathCleaning.Skipped(e.name) && e.kind.DirEntry? {
      MkdirAllMeaning(t, Target(e));
    } else if !PathCleaning.Skipped(e.name) && e.kind.RegularEntry? {
      RegularMeaning(t, Target(e), e.data, e.mode);
    }
  }

  /** A path that is written later is no directory now. */
  lemma {:induction false} WrittenIsNoDir(t: Tree, es: seq<Entry>, p: Path)
    requires Closed(t) && Extract(t, es).Some? && p in t && t[p].Dir?
    ensures !Mentions(es, p)
    decreases |es|
  {
    if es != [] {
      EntryMeaning(t, es[0]);
      var u := ExtractEntry(t, es[0]).value;
      assert At(u, p) == Some(Dir);
      WrittenIsNoDir(u, es[1..], p);
    }
  }

  /** Extraction means what its entries say, path by path. */
  lemma {:induction false} ExtractMeaning(t: Tree, es: seq<Entry>, p: Path)
    requires Closed(t) && Extract(t, es).Some?
    ensures Closed(Extract(t, es).value)
    ensures At(Extract(t, es).value, p) == Meaning(t, es, p)
    decreases |es|
  {
    if es != [] {
      var u := ExtractEntry(t, es[0]).value;
      EntryMeaning(t, es[0]);
      ExtractMeaning(u, es[1..], p);
      assert At(u, p) == if p in u then Some(u[p]) else None;
      if p in u && u[p].Dir? {
        WrittenIsNoDir(u, es[1..], p);
      }
    }
  }

  /** Whatever an extraction leaves below the destination was there before or is
    * named by an entry that passed the containment check. */
  lemma {:induction false} NothingElseAppears(t: Tree, es: seq<Entry>, p: Path)
    requires Closed(t) && Extract(t, es).Some?
    requires p in Extract(t, es).value && p !in t
    ensures exists i :: 0 <= i < |es| && PathCleaning.Accepted(es[i].name) && Leads(p, Target(es[i]))
    decreases |es|
  {
    var u := ExtractEntry(t, es[0]).value;
    EntryMeaning(t, es[0]);
    if p in u {
      assert At(u, p).Some?;
      assert PathCleaning.Accepted(es[0].name) && Leads(p, Target(es[0]));
    } else {
      NothingElseAppears(u, es[1..], p);
      var i :| 0 <= i < |es[1..]| && PathCleaning.Accepted(es[1..][i].name) && Leads(p, Target(es[1..][i]));
      assert es[i + 1] == es[1..][i];
    }
  }

  /* ---------- when an extraction succeeds ---------- */

  /** The entry is skipped, or stays inside and, if it is a file, is whole and has a name. */
  predicate Admissible(e: Entry) {
    || PathCleaning.Skipped(e.name)
    || (!PathCleaning.Unsafe(e.name) && (e.kind.RegularEntry? ==> e.whole && Target(e) != []))
  }

  predicate AllAdmissible(es: seq<Entry>) {
    forall i :: 0 <= i < |es| ==> Admissible(es[i])
  }

  /** The path is not wanted both as a file and as a directory, by the entries among
    * themselves or against what is there. */
  ghost predicate ConsistentAt(t: Tree, es: seq<Entry>, p: Path) {
    && (Mentions(es, p) ==> !Implied(es, p) && (p in t ==> t[p].File?))
    && (Implied(es, p) && p in t ==> t[p].Dir?)
  }

  ghost predicate Consistent(t: Tree, es: seq<Entry>) {
    forall p :: ConsistentAt(t, es, p)
  }

  /** The same for one entry. */
  ghost predicate WelcomeAt(t: Tree, e: Entry, p: Path) {
    p in t ==> (Writes(e, p) ==> t[p].File?) && (Implies(e, p) ==> t[p].Dir?)
  }

  ghost predicate Welcome(t: Tree, e: Entry) {
    forall p :: WelcomeAt(t, e, p)
  }

  /** Making directories fails exactly when a file is in the way. */
  lemma {:induction false} MkdirAllSucceedsIff(t: Tree, p: Path)
    requires Closed(t) && t[[]].Dir?
    ensures MkdirAll(t, p).Some? <==> forall q :: Leads(q, p) && q in t ==> t[q].Dir?
  {
    if p in t {
      forall q | Leads(q, p) && q in t && q != p
        ensures t[q].Dir?
      {
        ClosedPrefix(t, p, q);
      }
      assert Leads(p, p);
    } else {
      MkdirAllSucceedsIff(t, p[..|p| - 1]);
      forall q
        ensures Leads(q, p) <==> q == p || Leads(q, p[..|p| - 1])
      {
        LeadsToParent(p, q);
      }
    }
  }

  lemma DirSucceedsIff(t: Tree, e: Entry)
    requires Closed(t) && t[[]].Dir? && e.kind.DirEntry? && !PathCleaning.Skipped(e.name) && !PathCleaning.Unsafe(e.name)
    ensures ExtractEntry(t, e).Some? <==> Welcome(t, e)
  {
    MkdirAllSucceedsIff(t, Target(e));
    forall p
      ensures WelcomeAt(t, e, p) <==> (Leads(p, Target(e)) && p in t ==> t[p].Dir?)
    {
    }
  }

  lemma FileSucceedsIff(t: Tree, e: Entry)
    requires Closed(t) && t[[]].Dir? && e.kind.RegularEntry? && !PathCleaning.Skipped(e.name) && !PathCleaning.Unsafe(e.name)
    requires e.whole && Target(e) != []
    ensures ExtractEntry(t, e).Some? <==> Welcome(t, e)
  {
    var target := Target(e);
    var up := target[..|target| - 1];
    MkdirAllSucceedsIff(t, up);
    forall p
      ensures WelcomeAt(t, e, p) <==> (Leads(p, up) && p in t ==> t[p].Dir?) && (p == target && p in t ==> t[p].File?)
    {
      LeadsToParent(target, p);
    }
    assert WelcomeAt(t, e, target) ==> (target in t ==> t[target].File?);
    if MkdirAll(t, up).Some? {
      MkdirAllMeaning(t, up);
      assert At(MkdirAll(t, up).value, target) == At(t, target);
    }
  }

  lemma EntrySucceedsIff(t: Tree, e: Entry)
    requires Closed(t) && t[[]].Dir?
    ensures ExtractEntry(t, e).Some? <==> Admissible(e) && Welcome(t, e)
  {
    if !PathCleaning.Skipped(e.name) && !PathCleaning.Unsafe(e.name) {
      if e.kind.DirEntry? {
        DirSucceedsIff(t, e);
      } else if e.kind.RegularEntry? && e.whole && Target(e) != [] {
        FileSucceedsIff(t, e);
      }
    }
  }

  lemma ConsistentNext(t: Tree, u: Tree, e: Entry, es: seq<Entry>, p: Path)
    requires es != [] && es[0] == e
    requires At(u, p) ==
               if Writes(e, p) then Some(File(e.data, if p in t && t[p].File? then t[p].mode else e.mode % 0x200))
               else if p in t then Some(t[p])
               else if Implies(e, p) then Some(Dir) else None
    ensures ConsistentAt(t, es, p) <==> WelcomeAt(t, e, p) && ConsistentAt(u, es[1..], p)
  {
  }

  /** The exact condition: every entry is admissible and nothing is wanted both as a
    * file and as a directory. */
  lemma {:induction false} ExtractSucceedsIff(t: Tree, es: seq<Entry>)
    requires Closed(t) && t[[]].Dir?
    ensures Extract(t, es).Some? <==> AllAdmissible(es) && Consistent(t, es)
    decreases |es|
  {
    if es != [] {
      EntrySucceedsIff(t, es[0]);
      assert AllAdmissible(es) <==> Admissible(es[0]) && AllAdmissible(es[1..]) by {
        assert forall i :: 0 < i < |es| ==> es[i] == es[1..][i - 1];
      }
      if ExtractEntry(t, es[0]).Some? {
        var u := ExtractEntry(t, es[0]).value;
        EntryMeaning(t, es[0]);
        assert u[[]].Dir? by {
          assert At(u, []).Some?;
        }
        forall p
          ensures ConsistentAt(t, es, p) <==> WelcomeAt(t, es[0], p) && ConsistentAt(u, es[1..], p)
        {
          ConsistentNext(t, u, es[0], es, p);
        }
        ExtractSucceedsIff(u, es[1..]);
      } else {
        assert forall p :: ConsistentAt(t, es, p) ==> WelcomeAt(t, es[0], p);
      }
    }
  }

  /** No path is both a file and a directory, and the destination itself is no file. */
  ghost predicate NoClash(es: seq<Entry>) {
    forall p :: Mentions(es, p) ==> p != [] && !Implied(es, p)
  }

  /** The same for an empty directory. */
  lemma ExtractAfreshIff(es: seq<Entry>)
    ensures Extract(EMPTY_DIR, es).Some? <==> AllAdmissible(es) && NoClash(es)
  {
    ExtractSucceedsIff(EMPTY_DIR, es);
    assert forall p :: p in EMPTY_DIR <==> p == [];
    if Consistent(EMPTY_DIR, es) {
      forall p | Mentions(es, p)
        ensures p != [] && !Implied(es, p)
      {
        assert ConsistentAt(EMPTY_DIR, es, p);
      }
    }
    if NoClash(es) {
      forall p
        ensures ConsistentAt(EMPTY_DIR, es, p)
      {
        assert Mentions(es, p) ==> p != [] && !Implied(es, p);
      }
    }
  }

  lemma AfreshDirIff(es: seq<Entry>, p: Path)
    requires Extract(EMPTY_DIR, es).Some? && p != []
    ensures p in Extract(EMPTY_DIR, es).value && Extract(EMPTY_DIR, es).value[p].Dir? <==> Implied(es, p)
  {
    ExtractAfreshIff(es);
    ExtractMeaning(EMPTY_DIR, es, p);
    assert p in EMPTY_DIR <==> p == [];
  }

  /* ---------- extraction over leftovers ---------- */

  /** The directory `extractTarGz` starts from when nothing is in its way. */
  const EMPTY_DIR: Tree := map[[] := Dir]

  /** Every node of `c` is in `t`, with the same kind. */
  ghost predicate Within(c: Tree, t: Tree) {
    forall p :: p in c ==> p in t && c[p].Dir? == t[p].Dir?
  }

  lemma {:induction false} MkdirAllWithin(c: Tree, t: Tree, p: Path)
    requires Closed(t) && Within(c, t) && MkdirAll(t, p).Some?
    ensures MkdirAll(c, p).Some? && Within(MkdirAll(c, p).value, MkdirAll(t, p).value)
  {
    if p !in c && p != [] {
      if p in t {
        assert MkdirAll(t, p[..|p| - 1]) == Some(t);
      }
      MkdirAllWithin(c, t, p[..|p| - 1]);
    }
  }

  lemma EntryWithin(c: Tree, t: Tree, e: Entry)
    requires Closed(t) && Within(c, t) && ExtractEntry(t, e).Some?
    ensures ExtractEntry(c, e).Some? && Within(ExtractEntry(c, e).value, ExtractEntry(t, e).value)
  {
    if !PathCleaning.Skipped(e.name) && e.kind.DirEntry? {
      MkdirAllWithin(c, t, Target(e));
    } else if !PathCleaning.Skipped(e.name) && e.kind.RegularEntry? {
      MkdirAllWithin(c, t, Target(e)[..|Target(e)| - 1]);
    }
  }

  /** Leftovers can only make an extraction fail, never make it succeed. */
  lemma {:induction false} ExtractWithin(c: Tree, t: Tree, es: seq<Entry>)
    requires Closed(t) && Within(c, t) && Extract(t, es).Some?
    ensures Extract(c, es).Some? && Within(Extract(c, es).value, Extract(t, es).value)
    decreases |es|
  {
    if es != [] {
      EntryWithin(c, t, es[0]);
      EntryMeaning(t, es[0]);
      ExtractWithin(ExtractEntry(c, es[0]).value, ExtractEntry(t, es[0]).value, es[1..]);
    }
  }

  /** Each leftover is replaced by the archive's own node, mode included. */
  ghost predicate Covered(left: Tree, c: Tree) {
    forall p :: p in left ==> p in c && (left[p].File? && c[p].File? ==> left[p].mode == c[p].mode)
  }

  lemma SameAtEverywhere(t: Tree, c: Tree)
    requires forall p :: At(t, p) == At(c, p)
    ensures t == c
  {
    assert forall p :: p in t <==> At(t, p).Some?;
    assert forall p :: p in c <==> At(c, p).Some?;
    assert forall p :: p in t ==> t[p] == At(t, p).value == At(c, p).value == c[p];
  }

  lemma CoveredAgrees(left: Tree, t: Tree, c: Tree, es: seq<Entry>, p: Path)
    requires Closed(left) && left[[]].Dir? && Within(c, t)
    requires p in left ==> p in c && (left[p].File? && c[p].File? ==> left[p].mode == c[p].mode)
    requires At(t, p) == Meaning(left, es, p) && At(c, p) == Meaning(EMPTY_DIR, es, p)
    ensures At(t, p) == At(c, p)
  {
    if p in left {
      assert p in c && p in t && c[p].Dir? == t[p].Dir?;
    }
  }

  lemma LeftoverStays(left: Tree, es: seq<Entry>, p: Path)
    requires Closed(left) && Extract(left, es).Some? && p in left
    ensures var t := Extract(left, es).value;
            p in t && (left[p].File? && t[p].File? ==> left[p].mode == t[p].mode)
  {
    ExtractMeaning(left, es, p);
    assert At(Extract(left, es).value, p).Some?;
  }

  /** Extracting over leftovers gives the archive's own tree, at all paths but these,
    * exactly when the archive covers the leftovers at all paths but these. */
  lemma HarmlessOutsideIff(left: Tree, es: seq<Entry>, away: set<Path>)
    requires Closed(left) && left[[]].Dir? && Extract(left, es).Some?
    ensures Extract(EMPTY_DIR, es).Some?
    ensures Extract(left, es).value - away == Extract(EMPTY_DIR, es).value - away
            <==> Covered(left - away, Extract(EMPTY_DIR, es).value - away)
  {
    ExtractWithin(EMPTY_DIR, left, es);
    var t := Extract(left, es).value;
    var c := Extract(EMPTY_DIR, es).value;
    if Covered(left - away, c - away) {
      forall p
        ensures At(t - away, p) == At(c - away, p)
      {
        if p !in away {
          assert p in left ==> p in left - away;
          ExtractMeaning(left, es, p);
          ExtractMeaning(EMPTY_DIR, es, p);
          CoveredAgrees(left, t, c, es, p);
        }
      }
      SameAtEverywhere(t - away, c - away);
    } else if t - away == c - away {
      forall p | p in left - away
        ensures p in c - away && (left[p].File? && c[p].File? ==> left[p].mode == c[p].mode)
      {
        LeftoverStays(left, es, p);
        assert p in t - away && (t - away)[p] == t[p];
      }
    }
  }

  /** The same at all paths. */
  lemma LeftoversHarmlessIff(left: Tree, es: seq<Entry>)
    requires Closed(left) && left[[]].Dir? && Extract(left, es).Some?
    ensures Extract(EMPTY_DIR, es).Some?
    ensures Extract(left, es) == Extract(EMPTY_DIR, es) <==> Covered(left, Extract(EMPTY_DIR, es).value)
  {
    HarmlessOutsideIff(left, es, {});
    assert forall t: Tree :: t - {} == t;
  }

  /* ---------- leftovers that do end up in the result ---------- */

  lemma OneComponent(name: string)
    requires PathCleaning.Ordinary(name)
    ensures PathCleaning.CleanParts(name) == [name] && PathCleaning.Accepted(name)
  {
    Text.SplitWhole(name, '/');
    assert [name][1..] == [];
    assert PathCleaning.Push(false, [], name) == [name];
    assert PathCleaning.PushAll(false, [name], []) == [name];
    PathCleaning.UnsafeIff(name);
  }

  lemma ExtractOneFile(t: Tree, e: Entry)
    requires [] in t && t[[]].Dir? && PathCleaning.Ordinary(e.name) && e.kind.RegularEntry? && e.whole
    requires [e.name] !in t
    ensures Extract(t, [e]) == Some(t[[e.name] := File(e.data, e.mode % 0x200)])
  {
    OneComponent(e.name);
    assert [e.name][..0] == [] && [e][1..] == [];
    assert MkdirAll(t, []) == Some(t);
  }

  /** A stray file in the stage stays beside an archive of one file. */
  lemma StrayEndsUp(e: Entry, stray: string, data: Bytes, mode: nat)
    requires PathCleaning.Ordinary(e.name) && e.kind.RegularEntry? && e.whole && stray != e.name
    ensures var left := EMPTY_DIR[[stray] := File(data, mode)];
            && Extract(EMPTY_DIR, [e]) == Some(EMPTY_DIR[[e.name] := File(e.data, e.mode % 0x200)])
            && Extract(left, [e]) == Some(left[[e.name] := File(e.data, e.mode % 0x200)])
            && [stray] in Extract(left, [e]).value && [stray] !in Extract(EMPTY_DIR, [e]).value
  {
    assert [stray] != [e.name] by {
      assert [stray][0] != [e.name][0];
    }
    ExtractOneFile(EMPTY_DIR, e);
    ExtractOneFile(EMPTY_DIR[[stray] := File(data, mode)], e);
  }
}
