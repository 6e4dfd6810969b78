/** `filepath.Clean` on slash-separated names as a component stack machine, and the
  * containment check that `extractTarGz` makes with it. */
module PathCleaning {
  import opened Text

  /** One component meets the stack: `.` and empty components vanish, `..` removes
    * the component above it when there is one to remove. */
  function Push(rooted: bool, stack: seq<string>, c: string): seq<string> {
    if c == "" || c == "." then stack
    else if c == ".." then
      if stack != [] && stack[|stack| - 1] != ".." then stack[..|stack| - 1]
      else if rooted then stack
      else stack + [".."]
    else stack + [c]
  }

  function PushAll(rooted: bool, stack: seq<string>, cs: seq<string>): seq<string>
    decreases |cs|
  {
    if cs == [] then stack else PushAll(rooted, Push(rooted, stack, cs[0]), cs[1..])
  }

  predicate Rooted(name: string) {
    name != "" && name[0] == '/'
  }

  /** The components of the cleaned name. */
  function CleanParts(name: string): seq<string> {
    PushAll(Rooted(name), [], Split(name, '/'))
  }

  /** `filepath.Clean`. */
  function Clean(name: string): string {
    var parts := CleanParts(name);
    if Rooted(name) then "/" + Join(parts, '/')
    else if parts == [] then "." else Join(parts, '/')
  }

  /** The name is the destination itself and is skipped. */
  predicate Skipped(name: string) {
    Clean(name) == "."
  }

  /** The source's test on the cleaned text. */
  predicate Unsafe(name: string) {
    "../" <= Clean(name) || Clean(name) == ".."
  }

  predicate Accepted(name: string) {
    !Skipped(name) && !Unsafe(name)
  }

  /* ---------- the shape of a cleaned name ---------- */

  predicate Ordinary(c: string) {
    c != "" && c != "." && c != ".." && '/' !in c
  }

  /** `..` survives only as a leading component, and never in a rooted name. */
  ghost predicate Shape(rooted: bool, parts: seq<string>) {
    forall i :: 0 <= i < |parts| ==>
      || Ordinary(parts[i])
      || (!rooted && parts[i] == ".." && forall j :: 0 <= j < i ==> parts[j] == "..")
  }

  lemma {:induction false} PushAllShape(rooted: bool, stack: seq<string>, cs: seq<string>)
    requires Shape(rooted, stack)
    requires forall i :: 0 <= i < |cs| ==> '/' !in cs[i]
    ensures Shape(rooted, PushAll(rooted, stack, cs))
    decreases |cs|
  {
    if cs != [] {
      var next := Push(rooted, stack, cs[0]);
      if cs[0] == ".." && next == stack + [".."] && stack != [] {
        assert stack[|stack| - 1] == "..";
        assert forall j :: 0 <= j < |stack| ==> stack[j] == "..";
      }
      assert Shape(rooted, next);
      PushAllShape(rooted, next, cs[1..]);
    }
  }

  lemma CleanPartsShape(name: string)
    ensures Shape(Rooted(name), CleanParts(name))
  {
    JoinSplit(name, '/');
    PushAllShape(Rooted(name), [], Split(name, '/'));
  }

  /** The textual test of the source looks at exactly the first component. */
  lemma UnsafeIff(name: string)
    ensures Unsafe(name) <==> CleanParts(name) != [] && CleanParts(name)[0] == ".."
    ensures Skipped(name) <==> !Rooted(name) && CleanParts(name) == []
  {
    CleanPartsShape(name);
    var parts := CleanParts(name);
    if !Rooted(name) && parts != [] {
      assert parts[0] == ".." || Ordinary(parts[0]);
      if |parts| > 1 {
        assert Clean(name) == parts[0] + ['/'] + Join(parts[1..], '/');
        FirstSlash(parts[0], Join(parts[1..], '/'));
        assert |parts[0]| == 0 || |Clean(name)| > 1;
      } else {
        assert Clean(name) == parts[0];
        NoSlash(parts[0]);
      }
    }
  }

  lemma FirstSlash(a: string, b: string)
    requires '/' !in a
    ensures "../" <= a + ['/'] + b <==> a == ".."
  {
    var s := a + ['/'] + b;
    assert |a| > 2 ==> s[2] == a[2];
    assert s[|a|] == '/';
    assert |a| == 2 ==> a == [s[0], s[1]];
    assert "../" == ['.', '.', '/'];
  }

  lemma NoSlash(a: string)
    requires '/' !in a
    ensures !("../" <= a)
  {
    assert |a| > 2 ==> a[2] != '/';
  }

  /* ---------- containment ---------- */

  /** Following a relative name from directory `base`, one component at a time. */
  function Walk(base: seq<string>, cs: seq<string>): seq<string>
    decreases |cs|
  {
    if cs == [] then base
    else if cs[0] == "" || cs[0] == "." then Walk(base, cs[1..])
    else if cs[0] == ".." then Walk(if base == [] then [] else base[..|base| - 1], cs[1..])
    else Walk(base + [cs[0]], cs[1..])
  }

  /** How many leading components of a cleaned name are `..`. */
  function Climb(parts: seq<string>): (k: nat)
    ensures k <= |parts|
    ensures forall i :: 0 <= i < k ==> parts[i] == ".."
    ensures k < |parts| ==> parts[k] != ".."
  {
    if parts == [] || parts[0] != ".." then 0 else 1 + Climb(parts[1..])
  }

  /** The directory a cleaned name leads to. */
  function Attach(base: seq<string>, parts: seq<string>): seq<string>
    requires Climb(parts) <= |base|
  {
    base[..|base| - Climb(parts)] + parts[Climb(parts)..]
  }

  lemma ClimbSnoc(parts: seq<string>, c: string)
    requires Shape(false, parts)
    ensures c != ".." ==> Climb(parts + [c]) == Climb(parts)
    ensures c == ".." && (parts == [] || parts[|parts| - 1] == "..") ==>
              Climb(parts) == |parts| && Climb(parts + [c]) == |parts| + 1
  {
    if parts != [] {
      assert (parts + [c])[1..] == parts[1..] + [c];
      assert Shape(false, parts[1..]);
      ClimbSnoc(parts[1..], c);
    }
  }

  lemma {:induction false} ClimbDrop(parts: seq<string>)
    requires parts != [] && parts[|parts| - 1] != ".."
    ensures Climb(parts[..|parts| - 1]) == Climb(parts)
  {
    if |parts| > 1 {
      ClimbDrop(parts[1..]);
      assert parts[..|parts| - 1][1..] == parts[1..][..|parts| - 2];
    }
  }

  lemma WalkOne(at: seq<string>, c: string)
    requires c != "" && c != "."
    ensures Walk(at, [c]) == if c != ".." then at + [c] else if at == [] then [] else at[..|at| - 1]
  {
    assert [c][1..] == [];
  }

  lemma WalkDown(base: seq<string>, stack: seq<string>, c: string)
    requires Shape(false, stack) && Climb(stack) < |base| && c != "" && c != "." && c != ".."
    ensures Climb(stack + [c]) == Climb(stack)
    ensures Walk(Attach(base, stack), [c]) == Attach(base, stack + [c])
  {
    ClimbSnoc(stack, c);
    WalkOne(Attach(base, stack), c);
  }

  lemma DropLast<T>(a: seq<T>, b: seq<T>, k: nat)
    requires k < |b|
    ensures (a + b[k..])[..|a| + |b| - k - 1] == a + b[..|b| - 1][k..]
  {
  }

  lemma AttachDrop(base: seq<string>, stack: seq<string>, k: nat)
    requires k == Climb(stack) <= |base| && k < |stack|
    requires Climb(stack[..|stack| - 1]) == k
    ensures Attach(base, stack) != []
    ensures Attach(base, stack[..|stack| - 1]) == Attach(base, stack)[..|Attach(base, stack)| - 1]
  {
    DropLast(base[..|base| - k], stack, k);
  }

  lemma WalkBack(base: seq<string>, stack: seq<string>)
    requires Climb(stack) < |base| && stack != [] && stack[|stack| - 1] != ".."
    ensures Climb(stack[..|stack| - 1]) == Climb(stack)
    ensures Walk(Attach(base, stack), [".."]) == Attach(base, stack[..|stack| - 1])
  {
    ClimbDrop(stack);
    AttachDrop(base, stack, Climb(stack));
    WalkOne(Attach(base, stack), "..");
  }

  lemma AttachClimbed(base: seq<string>, parts: seq<string>)
    requires Climb(parts) == |parts| <= |base|
    ensures Attach(base, parts) == base[..|base| - |parts|]
  {
    assert parts[|parts|..] == [];
  }

  lemma TakeLess<T>(a: seq<T>, k: nat)
    requires k < |a|
    ensures a[..|a| - k][..|a[..|a| - k]| - 1] == a[..|a| - k - 1]
  {
  }

  lemma WalkUp(base: seq<string>, stack: seq<string>)
    requires Climb(stack) == |stack| < |base| && Climb(stack + [".."]) == |stack| + 1
    ensures Walk(Attach(base, stack), [".."]) == Attach(base, stack + [".."])
  {
    AttachClimbed(base, stack);
    AttachClimbed(base, stack + [".."]);
    TakeLess(base, |stack|);
    WalkOne(base[..|base| - |stack|], "..");
  }

  lemma AttachPush(base: seq<string>, stack: seq<string>, c: string)
    requires Shape(false, stack) && Climb(stack) < |base|
    ensures Climb(Push(false, stack, c)) <= Climb(stack) + 1
    ensures Walk(Attach(base, stack), [c]) == Attach(base, Push(false, stack, c))
  {
    if c == "" || c == "." {
    } else if c != ".." {
      WalkDown(base, stack, c);
    } else if stack != [] && stack[|stack| - 1] != ".." {
      WalkBack(base, stack);
    } else {
      ClimbSnoc(stack, "..");
      WalkUp(base, stack);
    }
  }

  /** A rooted name is what following it from the root leads to. */
  lemma {:induction false} RootedPushWalks(stack: seq<string>, cs: seq<string>)
    requires Shape(true, stack) && forall i :: 0 <= i < |cs| ==> '/' !in cs[i]
    ensures PushAll(true, stack, cs) == Walk(stack, cs)
    decreases |cs|
  {
    if cs != [] {
      PushAllShape(true, stack, [cs[0]]);
      assert PushAll(true, stack, [cs[0]]) == PushAll(true, Push(true, stack, cs[0]), []) == Push(true, stack, cs[0]);
      RootedPushWalks(Push(true, stack, cs[0]), cs[1..]);
    }
  }

  lemma RootedIsWalked(name: string)
    requires Rooted(name)
    ensures CleanParts(name) == Walk([], Split(name, '/'))
  {
    JoinSplit(name, '/');
    RootedPushWalks([], Split(name, '/'));
  }

  /** Cleaning first and walking afterwards leads to the same place. */
  lemma {:induction false} WalkIsAttach(base: seq<string>, stack: seq<string>, cs: seq<string>)
    requires Shape(false, stack) && Climb(stack) + |cs| <= |base|
    requires forall i :: 0 <= i < |cs| ==> '/' !in cs[i]
    ensures Climb(PushAll(false, stack, cs)) <= |base|
    ensures Walk(Attach(base, stack), cs) == Attach(base, PushAll(false, stack, cs))
    decreases |cs|
  {
    if cs != [] {
      var next := Push(false, stack, cs[0]);
      PushAllShape(false, stack, [cs[0]]);
      assert PushAll(false, stack, [cs[0]]) == PushAll(false, next, []) == next;
      AttachPush(base, stack, cs[0]);
      WalkIsAttach(base, next, cs[1..]);
      WalkCons(Attach(base, stack), cs);
    }
  }

  lemma WalkCons(base: seq<string>, cs: seq<string>)
    requires cs != []
    ensures Walk(base, cs) == Walk(Walk(base, [cs[0]]), cs[1..])
  {
    assert [cs[0]][1..] == [];
  }

  /** The name stays inside every destination deep enough to be climbed out of. */
  ghost predicate Contained(name: string) {
    forall base: seq<string> :: |base| >= |Split(name, '/')| ==> base <= Walk(base, Split(name, '/'))
  }

  /** A destination whose component names occur in no archive name. */
  lemma ClimbingLeaves(parts: seq<string>, base: seq<string>)
    requires Shape(false, parts) && parts != [] && parts[0] == ".." && |base| >= |parts|
    requires forall i :: 0 <= i < |base| ==> base[i] == "/"
    ensures !(base <= Attach(base, parts))
  {
    var k := Climb(parts);
    var w := Attach(base, parts);
    if k < |parts| {
      assert Ordinary(parts[k]) && w[|base| - k] == parts[k];
    }
  }

  lemma WalkOf(name: string, base: seq<string>)
    requires !Rooted(name) && |base| >= |Split(name, '/')|
    ensures Climb(CleanParts(name)) <= |base|
    ensures Walk(base, Split(name, '/')) == Attach(base, CleanParts(name))
  {
    JoinSplit(name, '/');
    WalkIsAttach(base, [], Split(name, '/'));
    assert Attach(base, []) == base;
  }

  lemma UnsafeLeaves(name: string, base: seq<string>)
    requires !Rooted(name) && CleanParts(name) != [] && CleanParts(name)[0] == ".."
    requires |base| >= |Split(name, '/')| && |base| >= |CleanParts(name)|
    requires forall i :: 0 <= i < |base| ==> base[i] == "/"
    ensures !(base <= Walk(base, Split(name, '/')))
  {
    var parts := CleanParts(name);
    WalkOf(name, base);
    assert Shape(false, parts) by { CleanPartsShape(name); }
    ClimbingLeaves(parts, base);
  }

  predicate Climbs(name: string) {
    CleanParts(name) != [] && CleanParts(name)[0] == ".."
  }

  lemma ContainedIff(name: string)
    requires !Rooted(name)
    ensures Contained(name) <==> !Climbs(name)
  {
    if Climbs(name) {
      var base := seq(|Split(name, '/')| + |CleanParts(name)|, i => "/");
      UnsafeLeaves(name, base);
    } else {
      forall base: seq<string> | |base| >= |Split(name, '/')|
        ensures base <= Walk(base, Split(name, '/'))
      {
        StaysInside(name, base);
      }
    }
  }

  lemma StaysInside(name: string, base: seq<string>)
    requires !Rooted(name) && !Climbs(name) && |base| >= |Split(name, '/')|
    ensures Walk(base, Split(name, '/')) == base + CleanParts(name)
  {
    WalkOf(name, base);
    AttachBelow(base, CleanParts(name));
  }

  /** The check is exact for relative names: it lets a name pass exactly when
    * following the raw name from the destination ends at the destination or below,
    * wherever the destination is. */
  lemma CheckIsExact(name: string)
    requires !Rooted(name)
    ensures !Unsafe(name) <==> Contained(name)
  {
    ContainedIff(name);
    UnsafeIff(name);
  }

  /** A relative name that passes is written where the raw name leads. */
  lemma WrittenWhereNamed(name: string, base: seq<string>)
    requires !Rooted(name) && !Unsafe(name) && |base| >= |Split(name, '/')|
    ensures Walk(base, Split(name, '/')) == base + CleanParts(name)
  {
    UnsafeIff(name);
    StaysInside(name, base);
  }

  lemma AttachBelow(base: seq<string>, parts: seq<string>)
    requires Climb(parts) == 0
    ensures Attach(base, parts) == base + parts
  {
  }

  /** Every accepted entry is written at the destination or below it: its target is
    * the destination's path followed by ordinary components only. */
  lemma AcceptedIsBelow(name: string)
    requires Accepted(name)
    ensures forall i :: 0 <= i < |CleanParts(name)| ==> Ordinary(CleanParts(name)[i])
  {
    CleanPartsShape(name);
    UnsafeIff(name);
  }
}
