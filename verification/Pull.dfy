/** `Fetch`: from a reference to a file in the cache, over a registry whose answers
  * are arbitrary and may be failures. A cache hit is not hashed again, so its
  * correctness rests on the store's invariant. */
module Pull {
  import opened Wrappers
  import opened Layers
  import opened BlobStore
  import Text

  datatype Manifest = Manifest(layers: seq<Descriptor>)

  /** What the registry client and the decoders answer for one pull. `root` is the
    * resolved reference; `read` is a fetch followed by `content.ReadAll`; `open` a
    * fetch whose body is streamed. */
  datatype Registry = Registry(
    root: Option<Descriptor>,
    read: Descriptor -> Option<Bytes>,
    open: Descriptor -> Option<Stream>,
    parseIndex: Bytes -> Option<seq<Descriptor>>,
    parseManifest: Bytes -> Option<Manifest>,
    text: Bytes -> string)

  datatype Component = Component(name: string, title: string, path: Path, digest: string)

  const INDEX_TYPES := {"application/vnd.oci.image.index.v1+json", "application/vnd.docker.distribution.manifest.list.v2+json"}

  /** `resolvePlatform`: an index leads to the manifest of the platform, anything else
    * is a manifest already. */
  function ResolvePlatform(reg: Registry, desc: Descriptor, arch: string): Option<Descriptor> {
    if desc.mediaType !in INDEX_TYPES then Some(desc)
    else
      var data := reg.read(desc);
      if data.None? then None
      else
        var index := reg.parseIndex(data.value);
        if index.None? then None else FirstFit(index.value, arch)
  }

  /** The manifest a pull works on: resolve, descend, fetch, parse. */
  function ManifestOf(reg: Registry, arch: string): Option<Manifest> {
    if reg.root.None? then None
    else
      var desc := ResolvePlatform(reg, reg.root.value, arch);
      if desc.None? then None
      else
        var data := reg.read(desc.value);
        if data.None? then None else reg.parseManifest(data.value)
  }

  /** The manifest a resolved reference leads to: the first that fits in an index of
    * either kind, or the reference's own. */
  ghost predicate LeadsTo(reg: Registry, root: Descriptor, arch: string, d: Descriptor) {
    if root.mediaType == "application/vnd.oci.image.index.v1+json"
       || root.mediaType == "application/vnd.docker.distribution.manifest.list.v2+json" then
      && reg.read(root).Some? && reg.parseIndex(reg.read(root).value).Some?
      && exists i: nat :: IsFirstFit(reg.parseIndex(reg.read(root).value).value, arch, i)
           && d == reg.parseIndex(reg.read(root).value).value[i]
    else d == root
  }

  /** The registry offers these layers for this architecture. */
  ghost predicate Offers(reg: Registry, arch: string, layers: seq<Descriptor>) {
    && reg.root.Some?
    && exists d :: LeadsTo(reg, reg.root.value, arch, d)
         && reg.read(d).Some? && reg.parseManifest(reg.read(d).value) == Some(Manifest(layers))
  }

  lemma ResolveIff(reg: Registry, root: Descriptor, arch: string, d: Descriptor)
    ensures ResolvePlatform(reg, root, arch) == Some(d) <==> LeadsTo(reg, root, arch, d)
  {
    if root.mediaType in INDEX_TYPES && reg.read(root).Some? && reg.parseIndex(reg.read(root).value).Some? {
      FirstFitIff(reg.parseIndex(reg.read(root).value).value, arch, d);
    }
  }

  lemma OffersIff(reg: Registry, arch: string, layers: seq<Descriptor>)
    ensures ManifestOf(reg, arch) == Some(Manifest(layers)) <==> Offers(reg, arch, layers)
  {
    if reg.root.Some? {
      var desc := ResolvePlatform(reg, reg.root.value, arch);
      if desc.Some? {
        ResolveIff(reg, reg.root.value, arch, desc.value);
      }
      forall d | LeadsTo(reg, reg.root.value, arch, d)
        ensures desc == Some(d)
      {
        ResolveIff(reg, reg.root.value, arch, d);
      }
    }
  }

  /** Layer `i` is the first one titled `want`. */
  predicate FirstTitled(layers: seq<Descriptor>, want: string, i: nat) {
    i < |layers| && layers[i].title == want && forall j :: 0 <= j < i ==> layers[j].title != want
  }

  /** A first matching sidecar that was fetched and parsed agrees with the digest. */
  ghost predicate SidecarAgrees(reg: Registry, layers: seq<Descriptor>, title: string, digest: string) {
    forall i: nat :: FirstTitled(layers, title + ".sha256", i) ==>
      var data := reg.read(layers[i]);
      data.Some? && SidecarSum(reg.text(data.value)) != "" ==> "sha256:" + SidecarSum(reg.text(data.value)) == digest
  }

  method VerifySidecar(reg: Registry, layers: seq<Descriptor>, title: string, digest: string) returns (ok: bool)
    ensures ok <==> SidecarAgrees(reg, layers, title, digest)
  {
    var want := title + ".sha256";
    var i := 0;
    while i < |layers|
      invariant 0 <= i <= |layers|
      invariant forall j :: 0 <= j < i ==> layers[j].title != want
    {
      if layers[i].title == want {
        assert FirstTitled(layers, want, i);
        var data := reg.read(layers[i]);
        if data.None? {
          return true;
        }
        var sum := SidecarSum(reg.text(data.value));
        return sum == "" || "sha256:" + sum == digest;
      }
      i := i + 1;
    }
    assert forall j: nat :: !FirstTitled(layers, want, j);
    return true;
  }

  function TitleOf(name: string, layer: Descriptor): string {
    if layer.title == "" then name else layer.title
  }

  /** The component's title is the layer's, or the component's name when it has none. */
  predicate IsTitle(title: string, name: string, layer: Descriptor) {
    (layer.title == "" && title == name) || (layer.title != "" && title == layer.title)
  }

  /** Nothing stands in the way of pulling this layer: its sidecar does not disagree,
    * and it is cached already or the registry delivers what its digest names. */
  ghost predicate Pullable(sha: Bytes -> string, files: Files, reg: Registry, layers: seq<Descriptor>, title: string,
                           layer: Descriptor, h: string) {
    && SidecarAgrees(reg, layers, title, layer.digest)
    && layer.digest == "sha256:" + h && Text.LowerHex64(h)
    && (Path("sha256", h) in files
        || (reg.open(layer).Some? && reg.open(layer).value.endsWell && sha(Flatten(reg.open(layer).value.chunks)) == h))
  }

  /** The file holds bytes that hash to the digest it was asked for by. */
  ghost predicate Authentic(sha: Bytes -> string, files: Files, c: Component) {
    && c.path.dir == "sha256" && c.digest == "sha256:" + c.path.name
    && c.path in files && sha(files[c.path]) == c.path.name
  }

  /** The component is this layer, and no sidecar disagrees. */
  ghost predicate Delivers(reg: Registry, name: string, layers: seq<Descriptor>, layer: Descriptor, c: Component) {
    && c.name == name && c.digest == layer.digest && IsTitle(c.title, name, layer)
    && SidecarAgrees(reg, layers, c.title, c.digest)
  }

  /** An undisturbed pull of this layer would succeed. */
  ghost predicate WouldDeliver(sha: Bytes -> string, files: Files, reg: Registry, name: string, layers: seq<Descriptor>,
                               layer: Descriptor) {
    exists title, h :: IsTitle(title, name, layer) && Pullable(sha, files, reg, layers, title, layer, h)
  }

  /** `Fetch` once the layer is chosen. */
  method FetchLayer(cache: Cache, name: string, reg: Registry, layers: seq<Descriptor>, layer: Descriptor, tempName: string,
                    calm: bool)
    returns (result: Option<Component>)
    requires cache.Valid() && TempName(tempName) && Path("sha256", tempName) !in cache.files
    modifies cache
    ensures cache.Valid()
    ensures result.None? ==> Committed(cache.files) == Committed(old(cache.files))
    ensures result.Some? ==> Authentic(cache.sha, cache.files, result.value) && Delivers(reg, name, layers, layer, result.value)
    ensures calm ==> (result.Some? <==> WouldDeliver(cache.sha, old(cache.files), reg, name, layers, layer))
    ensures result.Some? ==>
              || cache.files == old(cache.files)
              || (result.value.path !in old(cache.files)
                  && Committed(cache.files) == Committed(old(cache.files))[result.value.path := cache.files[result.value.path]])
  {
    var digest := layer.digest;
    var title := TitleOf(name, layer);
    var agrees := VerifySidecar(reg, layers, title, digest);
    if !agrees {
      return None;
    }
    if BlobPath(digest).Some? {
      BlobIsNoTemp(digest);
    }
    if Has(cache.files, digest) {
      var path := BlobPath(digest).value;
      Sha256Digest(digest);
      assert Pullable(cache.sha, cache.files, reg, layers, title, layer, path.name);
      return Some(Component(name, title, path, digest));
    }
    var body := reg.open(layer);
    if body.None? {
      NotPullable(cache.sha, cache.files, reg, name, layers, layer);
      return None;
    }
    var path;
    ghost var ls, t;
    path, ls, t := cache.PutStream(digest, body.value, tempName, calm, State(cache.files, map[], {}), 0);
    if path.None? {
      NotPullable(cache.sha, old(cache.files), reg, name, layers, layer);
      return None;
    }
    result := Some(Component(name, title, path.value, digest));
    assert Committed(cache.files)[path.value] == cache.files[path.value];
    assert Pullable(cache.sha, old(cache.files), reg, layers, title, layer, path.value.name);
  }

  /** A layer that is not cached is pullable only if the registry delivers it. */
  lemma NotPullable(sha: Bytes -> string, files: Files, reg: Registry, name: string, layers: seq<Descriptor>, layer: Descriptor)
    requires HexSums(sha) && !Has(files, layer.digest)
    ensures WouldDeliver(sha, files, reg, name, layers, layer) ==>
              reg.open(layer).Some? && reg.open(layer).value.endsWell
              && layer.digest == "sha256:" + sha(Flatten(reg.open(layer).value.chunks))
  {
    if title, h :| IsTitle(title, name, layer) && Pullable(sha, files, reg, layers, title, layer, h) {
      Sha256Path(h);
    }
  }

  lemma NoPrimary(name: string, layers: seq<Descriptor>, i: nat)
    requires forall j :: 0 <= j < |layers| ==> !Expected(name, layers[j]) && Sidecar(layers[j])
    ensures !IsPrimary(name, layers, i)
  {
  }

  /** An undisturbed pull would succeed: the primary layer of what is offered is pullable. */
  ghost predicate WouldPull(sha: Bytes -> string, files: Files, reg: Registry, arch: string, name: string) {
    exists layers, i: nat ::
      Offers(reg, arch, layers) && IsPrimary(name, layers, i) && WouldDeliver(sha, files, reg, name, layers, layers[i])
  }

  /** `Fetch`. Success, by hit or by download, means the primary layer's digest, its
    * bytes at the returned path, and no disagreeing sidecar; failure leaves the
    * committed blobs as they were. */
  method Fetch(cache: Cache, name: string, reg: Registry, arch: string, tempName: string, calm: bool)
    returns (result: Option<Component>)
    requires cache.Valid() && TempName(tempName) && Path("sha256", tempName) !in cache.files
    modifies cache
    ensures cache.Valid()
    ensures result.None? ==> Committed(cache.files) == Committed(old(cache.files))
    ensures result.Some? ==>
              && Authentic(cache.sha, cache.files, result.value)
              && exists layers, i: nat ::
                   Offers(reg, arch, layers) && IsPrimary(name, layers, i) && Delivers(reg, name, layers, layers[i], result.value)
    ensures calm ==> (result.Some? <==> WouldPull(cache.sha, old(cache.files), reg, arch, name))
    ensures result.Some? ==>
              || cache.files == old(cache.files)
              || (result.value.path !in old(cache.files)
                  && Committed(cache.files) == Committed(old(cache.files))[result.value.path := cache.files[result.value.path]])
  {
    var man := ManifestOf(reg, arch);
    forall layers
      ensures Offers(reg, arch, layers) <==> man == Some(Manifest(layers))
    {
      OffersIff(reg, arch, layers);
    }
    if man.None? {
      return None;
    }
    var layers := man.value.layers;
    assert Offers(reg, arch, layers);
    var layer := SelectPrimaryLayer(name, layers);
    if layer.None? {
      forall i: nat
        ensures !IsPrimary(name, layers, i)
      {
        NoPrimary(name, layers, i);
      }
      return None;
    }
    ghost var at: nat :| IsPrimary(name, layers, at) && layers[at] == layer.value;
    forall i: nat | IsPrimary(name, layers, i)
      ensures i == at
    {
      PrimaryIsUnique(name, layers, i, at);
    }
    result := FetchLayer(cache, name, reg, layers, layer.value, tempName, calm);
  }
}
