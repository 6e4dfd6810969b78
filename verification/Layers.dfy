/** Choosing the payload layer of a manifest and the manifest of a platform. */
module Layers {
  import opened Wrappers
  import Text

  datatype Platform = Platform(architecture: string, os: string)

  /** `title` is the title annotation, empty when there is none. */
  datatype Descriptor = Descriptor(mediaType: string, digest: string, size: int, title: string, platform: Option<Platform>)

  predicate Contains(s: string, part: string) {
    exists i :: 0 <= i <= |s| && part <= s[i..]
  }

  predicate HasSuffix(s: string, suffix: string) {
    |suffix| <= |s| && s[|s| - |suffix|..] == suffix
  }

  /** `isSidecar`. */
  predicate IsSidecar(l: Descriptor) {
    || "text/plain" <= l.mediaType
    || Contains(l.mediaType, "provenance")
    || HasSuffix(l.title, ".sha256")
    || HasSuffix(l.title, ".provenance.json")
  }

  function ExpectedMediaTypes(name: string): seq<string> {
    if name == "kernel" then
      ["application/vnd.linux.vmlinux.v1+binary", "application/vnd.linux.kernel.v1+binary"]
    else if name == "initrd" then ["application/vnd.linux.initrd.v1+binary"]
    else if name == "rootfs" then
      ["application/vnd.linux.disk.qcow2.v1+binary", "application/vnd.linux.disk.ext4.v1+binary",
       "application/vnd.linux.rootfs.qcow2.v1+binary", "application/vnd.linux.rootfs.ext4.v1+binary"]
    else []
  }

  /** A checksum or provenance layer: by the start or the middle of its media type, or
    * by the end of its title. */
  ghost predicate Sidecar(l: Descriptor) {
    || (exists rest :: l.mediaType == "text/plain" + rest)
    || (exists before, after :: l.mediaType == before + "provenance" + after)
    || (exists stem :: l.title == stem + ".sha256")
    || (exists stem :: l.title == stem + ".provenance.json")
  }

  lemma PrefixIff(s: string, part: string)
    ensures part <= s <==> exists rest :: s == part + rest
  {
    if part <= s {
      assert s == part + s[|part|..];
    }
  }

  lemma ContainsIff(s: string, part: string)
    ensures Contains(s, part) <==> exists before, after :: s == before + part + after
  {
    if Contains(s, part) {
      var i :| 0 <= i <= |s| && part <= s[i..];
      assert s == s[..i] + part + s[i + |part|..];
    }
    if before, after :| s == before + part + after {
      assert s[|before|..] == part + after;
    }
  }

  lemma HasSuffixIff(s: string, suffix: string)
    ensures HasSuffix(s, suffix) <==> exists stem :: s == stem + suffix
  {
    if HasSuffix(s, suffix) {
      assert s == s[..|s| - |suffix|] + suffix;
    }
  }

  lemma SidecarIff(l: Descriptor)
    ensures IsSidecar(l) <==> Sidecar(l)
  {
    PrefixIff(l.mediaType, "text/plain");
    ContainsIff(l.mediaType, "provenance");
    HasSuffixIff(l.title, ".sha256");
    HasSuffixIff(l.title, ".provenance.json");
  }

  /** The media types a component is published under. */
  predicate Expected(name: string, l: Descriptor) {
    || (name == "kernel"
        && (l.mediaType == "application/vnd.linux.vmlinux.v1+binary" || l.mediaType == "application/vnd.linux.kernel.v1+binary"))
    || (name == "initrd" && l.mediaType == "application/vnd.linux.initrd.v1+binary")
    || (name == "rootfs"
        && (l.mediaType == "application/vnd.linux.disk.qcow2.v1+binary" || l.mediaType == "application/vnd.linux.disk.ext4.v1+binary"
            || l.mediaType == "application/vnd.linux.rootfs.qcow2.v1+binary"
            || l.mediaType == "application/vnd.linux.rootfs.ext4.v1+binary"))
  }

  lemma ExpectedIff(name: string, l: Descriptor)
    ensures l.mediaType in ExpectedMediaTypes(name) <==> Expected(name, l)
  {
    assert !("kernel" == "initrd") && !("kernel" == "rootfs") && !("initrd" == "rootfs") by {
      assert "kernel"[0] == 'k' && "initrd"[0] == 'i' && "rootfs"[0] == 'r';
    }
  }

  /** Layer `i` is the earliest among the largest that are no sidecars. */
  ghost predicate IsLargest(layers: seq<Descriptor>, i: nat) {
    && i < |layers| && !Sidecar(layers[i])
    && (forall j :: 0 <= j < |layers| && !Sidecar(layers[j]) ==> layers[j].size <= layers[i].size)
    && (forall j :: 0 <= j < i && !Sidecar(layers[j]) ==> layers[j].size < layers[i].size)
  }

  /** Layer `i` is the payload: the earliest with an expected media type if there is
    * one, otherwise the earliest among the largest that are no sidecars. */
  ghost predicate IsPrimary(name: string, layers: seq<Descriptor>, i: nat) {
    && i < |layers|
    && if exists j :: 0 <= j < |layers| && Expected(name, layers[j]) then
         Expected(name, layers[i]) && forall j :: 0 <= j < i ==> !Expected(name, layers[j])
       else IsLargest(layers, i)
  }

  /** The choice is a function of the manifest. */
  lemma PrimaryIsUnique(name: string, layers: seq<Descriptor>, i: nat, j: nat)
    requires IsPrimary(name, layers, i) && IsPrimary(name, layers, j)
    ensures i == j
  {
  }

  method SelectPrimaryLayer(name: string, layers: seq<Descriptor>) returns (layer: Option<Descriptor>)
    ensures layer.Some? ==> exists i: nat :: IsPrimary(name, layers, i) && layers[i] == layer.value
    ensures layer.None? <==> forall i :: 0 <= i < |layers| ==> !Expected(name, layers[i]) && Sidecar(layers[i])
  {
    var want := ExpectedMediaTypes(name);
    var i := 0;
    while i < |layers|
      invariant 0 <= i <= |layers|
      invariant forall j :: 0 <= j < i ==> !Expected(name, layers[j])
    {
      ExpectedIff(name, layers[i]);
      var w := 0;
      while w < |want|
        invariant 0 <= w <= |want|
        invariant layers[i].mediaType !in want[..w]
      {
        if layers[i].mediaType == want[w] {
          assert IsPrimary(name, layers, i);
          return Some(layers[i]);
        }
        w := w + 1;
      }
      assert want[..w] == want;
      i := i + 1;
    }
    layer := LargestPayload(layers);
  }

  /** The second loop of `selectPrimaryLayer`. */
  method LargestPayload(layers: seq<Descriptor>) returns (best: Option<Descriptor>)
    ensures best.Some? ==> exists i: nat :: IsLargest(layers, i) && layers[i] == best.value
    ensures best.None? <==> forall i :: 0 <= i < |layers| ==> Sidecar(layers[i])
  {
    best := None;
    ghost var at := 0;
    var i := 0;
    while i < |layers|
      invariant 0 <= i <= |layers|
      invariant best.None? ==> forall j :: 0 <= j < i ==> Sidecar(layers[j])
      invariant best.Some? ==> IsLargest(layers[..i], at) && layers[at] == best.value
    {
      var l := layers[i];
      SidecarIff(l);
      if !IsSidecar(l) && (best.None? || l.size > best.value.size) {
        best, at := Some(l), i;
      }
      i := i + 1;
    }
    assert layers[..i] == layers;
    assert best.Some? ==> IsLargest(layers, at);
  }

  /** The manifest runs on `arch` under Linux, or does not say under what. */
  predicate Fits(d: Descriptor, arch: string) {
    d.platform.Some? && d.platform.value.architecture == arch && (d.platform.value.os == "" || d.platform.value.os == "linux")
  }

  method SelectPlatformManifest(manifests: seq<Descriptor>, arch: string) returns (chosen: Option<Descriptor>)
    ensures chosen == FirstFit(manifests, arch)
  {
    var i := 0;
    while i < |manifests|
      invariant 0 <= i <= |manifests|
      invariant FirstFit(manifests, arch) == FirstFit(manifests[i..], arch)
    {
      if Fits(manifests[i], arch) {
        return Some(manifests[i]);
      }
      i := i + 1;
    }
    return None;
  }

  /** The earliest manifest that fits. */
  function FirstFit(manifests: seq<Descriptor>, arch: string): Option<Descriptor> {
    if manifests == [] then None
    else if Fits(manifests[0], arch) then Some(manifests[0])
    else FirstFit(manifests[1..], arch)
  }

  /** The manifest is for this architecture, under Linux or no named system. */
  predicate RunsOn(d: Descriptor, arch: string) {
    d.platform == Some(Platform(arch, "linux")) || d.platform == Some(Platform(arch, ""))
  }

  /** Manifest `i` fits and none before it does. */
  predicate IsFirstFit(manifests: seq<Descriptor>, arch: string, i: nat) {
    i < |manifests| && RunsOn(manifests[i], arch) && forall j :: 0 <= j < i ==> !RunsOn(manifests[j], arch)
  }

  lemma {:induction false} FirstFitIff(manifests: seq<Descriptor>, arch: string, m: Descriptor)
    ensures FirstFit(manifests, arch) == Some(m) <==> exists i: nat :: IsFirstFit(manifests, arch, i) && manifests[i] == m
    ensures FirstFit(manifests, arch) == None <==> forall i :: 0 <= i < |manifests| ==> !RunsOn(manifests[i], arch)
  {
    if manifests != [] {
      FirstFitIff(manifests[1..], arch, m);
      if Fits(manifests[0], arch) {
        assert IsFirstFit(manifests, arch, 0);
      } else {
        if i: nat :| IsFirstFit(manifests[1..], arch, i) && manifests[1..][i] == m {
          assert IsFirstFit(manifests, arch, i + 1) && manifests[i + 1] == m;
        }
        if i: nat :| IsFirstFit(manifests, arch, i) && manifests[i] == m {
          assert IsFirstFit(manifests[1..], arch, i - 1) && manifests[1..][i - 1] == m;
        }
      }
    }
  }

  /** The sum a sidecar's text carries, or empty when it does not look like one. */
  function SidecarSum(content: string): (sum: string)
    ensures sum == "" || |sum| == 64
  {
    var fields := Text.Fields(content);
    if fields == [] || |fields[0]| != 64 then "" else Text.ToLower(fields[0])
  }

  /** A text whose first word is `word` carries it, in lower case, exactly when it is
    * 64 characters long; a text without words carries nothing. */
  lemma SidecarCarries(pad: string, word: string, rest: string)
    requires Text.AllSpace(pad) && Text.NoSpace(word)
    requires if word == "" then rest == "" else rest != "" ==> Text.IsSpace(rest[0])
    ensures SidecarSum(pad + word + rest) == if |word| == 64 then Text.ToLower(word) else ""
  {
    assert pad + word + rest == pad + (word + rest);
    Text.FieldsSkip(pad, word + rest);
    if word == "" {
      assert word + rest == "";
    } else {
      Text.FieldsWord(word, rest);
    }
  }
}
