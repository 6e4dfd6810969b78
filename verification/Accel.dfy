/** `AccelCandidates`: the accelerators to try on this host, best first. */
module Accel {
  datatype HostOS = Windows | Linux | Darwin | OtherOS

  function DefaultPreference(os: HostOS): (pref: seq<string>)
    ensures pref != []
  {
    match os
    case Windows => ["whpx", "tcg"]
    case Linux => ["kvm", "tcg"]
    case Darwin => ["hvf", "tcg"]
    case OtherOS => ["tcg"]
  }

  predicate NoDuplicates(s: seq<string>) {
    forall i, j :: 0 <= i < j < |s| ==> s[i] != s[j]
  }

  /** `part` lists first occurrences in `whole`, in increasing order of position. */
  ghost predicate InOrder(part: seq<string>, whole: seq<string>) {
    exists at: seq<nat> ::
      && |at| == |part|
      && (forall i :: 0 <= i < |at| ==> at[i] < |whole| && whole[at[i]] == part[i] && part[i] !in whole[..at[i]])
      && (forall i, j :: 0 <= i < j < |at| ==> at[i] < at[j])
  }

  /** Usable on this host; software emulation always is. */
  predicate Usable(a: string, available: string -> bool) {
    a == "tcg" || available(a)
  }

  lemma {:induction false} NoMoreThan(out: seq<string>, names: set<string>)
    requires NoDuplicates(out) && forall i :: 0 <= i < |out| ==> out[i] in names
    ensures |out| <= |names|
  {
    if out != [] {
      NoMoreThan(out[1..], names - {out[0]});
    }
  }

  lemma TwoInOrder(out: seq<string>, a: string, usable: bool)
    requires a != "tcg" && NoDuplicates(out) && InOrder(out, [a, "tcg"])
    requires forall x :: x in out <==> x == "tcg" || (x == a && usable)
    ensures out == if usable then [a, "tcg"] else ["tcg"]
  {
    assert "tcg" in out;
    assert forall i :: 0 <= i < |out| ==> out[i] in out;
    NoMoreThan(out, {a, "tcg"});
    if usable {
      assert a in out;
      assert |out| == 2;
      var at: seq<nat> :| |at| == |out| && (forall i :: 0 <= i < |at| ==> at[i] < 2 && [a, "tcg"][at[i]] == out[i])
                          && forall i, j :: 0 <= i < j < |at| ==> at[i] < at[j];
      assert at[0] < at[1];
    } else {
      NoMoreThan(out, {"tcg"});
    }
  }

  lemma DefaultOrder(out: seq<string>, os: HostOS, available: string -> bool)
    requires NoDuplicates(out) && InOrder(out, DefaultPreference(os))
    requires forall x :: x in out <==> x == "tcg" || (x in DefaultPreference(os) && Usable(x, available))
    ensures out == DefaultCandidates(os, available)
  {
    var pref := DefaultPreference(os);
    assert "whpx"[0] == 'w' && "kvm"[0] == 'k' && "hvf"[0] == 'h' && "tcg"[0] == 't';
    if os.OtherOS? {
      assert "tcg" in out && forall i :: 0 <= i < |out| ==> out[i] in out;
      NoMoreThan(out, {"tcg"});
    } else {
      assert pref == [pref[0], "tcg"];
      TwoInOrder(out, pref[0], available(pref[0]));
    }
  }

  /** The host's own accelerator when it is there, then software emulation. */
  function DefaultCandidates(os: HostOS, available: string -> bool): seq<string> {
    if os.Windows? && available("whpx") then ["whpx", "tcg"]
    else if os.Linux? && available("kvm") then ["kvm", "tcg"]
    else if os.Darwin? && available("hvf") then ["hvf", "tcg"]
    else ["tcg"]
  }

  /** Exactly the usable preferences and tcg, once each, in the order of their first
    * occurrence; tcg comes last only when it was not listed. */
  ghost predicate Ordered(out: seq<string>, pref: seq<string>, available: string -> bool) {
    && out != [] && NoDuplicates(out) && "tcg" in out
    && (forall a :: a in out <==> a == "tcg" || (a in pref && Usable(a, available)))
    && InOrder(if "tcg" in pref then out else out[..|out| - 1], pref)
    && ("tcg" !in pref ==> out[|out| - 1] == "tcg")
  }

  /** `AccelCandidates`. */
  method AccelCandidates(configured: seq<string>, os: HostOS, available: string -> bool) returns (out: seq<string>)
    ensures configured != [] ==> Ordered(out, configured, available)
    ensures configured == [] ==> out == DefaultCandidates(os, available)
  {
    var pref := if configured == [] then DefaultPreference(os) else configured;
    out := Prune(pref, available);
    if configured == [] {
      assert "tcg" in pref;
      DefaultOrder(out, os, available);
    }
  }

  /** The loop of `AccelCandidates`. */
  method Prune(pref: seq<string>, available: string -> bool) returns (out: seq<string>)
    ensures Ordered(out, pref, available)
  {
    out := [];
    var seen: set<string> := {};
    ghost var at: seq<nat> := [];
    var i := 0;
    while i < |pref|
      invariant 0 <= i <= |pref|
      invariant NoDuplicates(out)
      invariant forall a :: a in seen <==> a in out
      invariant forall a :: a in out <==> a in pref[..i] && Usable(a, available)
      invariant |at| == |out|
      invariant forall j :: 0 <= j < |at| ==> at[j] < i && pref[at[j]] == out[j] && out[j] !in pref[..at[j]]
      invariant forall j, k :: 0 <= j < k < |at| ==> at[j] < at[k]
    {
      var a := pref[i];
      assert pref[..i + 1] == pref[..i] + [a];
      if a !in seen && (a == "tcg" || available(a)) {
        out, at := out + [a], at + [i];
        seen := seen + {a};
      }
      i := i + 1;
    }
    assert pref[..i] == pref;
    assert InOrder(out, pref);
    if "tcg" !in seen {
      assert (out + ["tcg"])[..|out|] == out;
      out := out + ["tcg"];
    }
  }
}
