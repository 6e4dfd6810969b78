/** The copy-on-write disk: an overlay file over a cached base image, through any
  * history of pulls, evictions, starts, guest writes, stops and kills, against a
  * single mutable disk. */
module Disk {
  import opened Wrappers

  type Bytes = seq<bv8>
  type Blocks = map<nat, int>

  datatype Format = Qcow2 | Raw

  /** The overlay records the path of its base (named by digest, as the cache names
    * it) and the base's format, and holds the blocks written since. One that is not
    * `whole` is the start of a file, left by a `qemu-img` that died part-way. */
  datatype Overlay = Overlay(backing: string, format: Format, blocks: Blocks, whole: bool)

  /** SHA-256, and what a guest sees on an image that is a qcow2 container, or that is
    * a disk byte by byte. */
  datatype Context = Context(sha: Bytes -> string, qcow2: Bytes -> Blocks, raw: Bytes -> Blocks)

  /** What QEMU makes of a base whose format it was told. */
  function Decode(c: Context, format: Format, base: Bytes): Blocks {
    match format
    case Qcow2 => c.qcow2(base)
    case Raw => c.raw(base)
  }

  /** No two of these images have the same hash. */
  ghost predicate CollisionFree(sha: Bytes -> string, images: set<Bytes>) {
    forall a, b :: a in images && b in images && sha(a) == sha(b) ==> a == b
  }

  const QCOW2_MAGIC: Bytes := [0x51, 0x46, 0x49, 0xfb]

  /** `diskFormat`: a base shorter than four bytes is an error. */
  function DiskFormat(base: Bytes): Option<Format> {
    if |base| < 4 then None
    else if base[..4] == QCOW2_MAGIC then Some(Qcow2)
    else Some(Raw)
  }

  /** What can go wrong with the files while a disk is prepared. A launcher that is
    * killed before or during a step leaves what the failing step leaves. */
  datatype PrepareFault = RemoveFails | CreateFails | CreateTears

  /** What a preparation leaves at the overlay's path, and whether it succeeded. */
  datatype Prepared = Prepared(overlay: Option<Overlay>, ok: bool)

  /** `CreateOverlay`: a file that exists is left untouched, whatever it holds. */
  function CreateOverlay(overlay: Option<Overlay>, path: string, base: Bytes, fault: Option<PrepareFault>): (p: Prepared)
    ensures p.ok ==> p.overlay.Some?
  {
    var format := DiskFormat(base);
    if overlay.Some? then Prepared(overlay, true)
    else if format.None? || fault == Some(CreateFails) then Prepared(None, false)
    else Prepared(Some(Overlay(path, format.value, map[], fault != Some(CreateTears))), fault != Some(CreateTears))
  }

  /** `prepareDisk`; a fault in a step that is not taken changes nothing. */
  function PrepareDisk(overlay: Option<Overlay>, path: string, base: Bytes, reset: bool, persist: bool,
                       fault: Option<PrepareFault>): (p: Prepared)
    ensures p.ok ==> p.overlay.Some?
  {
    var renew := reset || !persist;
    if renew && fault == Some(RemoveFails) then Prepared(overlay, false)
    else CreateOverlay(if renew then None else overlay, path, base, fault)
  }

  /** QEMU can open the overlay. */
  predicate Bootable(o: Overlay, cache: map<string, Bytes>) {
    o.whole && o.backing in cache
  }

  /** The deferred removal of an ephemeral run's overlay, which may fail (its error is
    * dropped) or, when the launcher is killed, not be reached. */
  function Unwind(overlay: Option<Overlay>, persist: bool, removed: bool): Option<Overlay> {
    if !persist && removed then None else overlay
  }

  /** Whatever base it is made over, the overlay says qcow2 exactly when the base starts
    * with the four bytes of that format, and no overlay is made over less than four. */
  lemma OverlayFormat(path: string, base: Bytes, fault: Option<PrepareFault>)
    ensures var p := CreateOverlay(None, path, base, fault);
            && (p.ok ==> p.overlay.value.backing == path && p.overlay.value.blocks == map[] && p.overlay.value.whole)
            && (p.ok ==> (p.overlay.value.format == Qcow2 <==>
                  base[0] == 0x51 && base[1] == 0x46 && base[2] == 0x49 && base[3] == 0xfb))
            && (fault.None? ==> (p.ok <==> |base| >= 4))
  {
    if |base| >= 4 {
      assert base[..4] == [base[0], base[1], base[2], base[3]];
    }
  }

  /* ---------- the concrete machine ---------- */

  /** `running` carries the run's persist setting. */
  datatype State = State(cache: map<string, Bytes>, overlay: Option<Overlay>, running: Option<bool>)

  /** `Pull` commits a blob, over one that another process has just committed. `Evict`
    * removes one; `clean` is as many of them as it gets to, then, when asked for and
    * reached, `DropState`. `Start` is a whole start: components resolved, disk
    * prepared, QEMU tried. It boots only if QEMU can open the overlay, and may fail
    * even then. `Stop` is the end of the run, by returning or by being killed.
    * `removed` tells whether the deferred removal, if there is one, ran and succeeded. */
  datatype Event =
    | Pull(digest: string, bytes: Bytes)
    | Evict(digest: string)
    | DropState
    | Start(digest: string, reset: bool, persist: bool, fault: Option<PrepareFault>, boots: bool, removed: bool)
    | Write(block: nat, value: int)
    | Stop(removed: bool)

  const INITIAL := State(map[], None, None)

  predicate Possible(c: Context, s: State, e: Event) {
    match e
    case Pull(digest, bytes) => c.sha(bytes) == digest
    case Evict(_) => s.running.None?
    case DropState => s.running.None?
    case Start(digest, _, _, _, _, _) => s.running.None? && digest in s.cache
    case Write(_, _) => s.running.Some? && s.overlay.Some?
    case Stop(_) => s.running.Some?
  }

  function Step(s: State, e: Event): State {
    match e
    case Pull(digest, bytes) => s.(cache := s.cache[digest := bytes])
    case Evict(digest) => s.(cache := s.cache - {digest})
    case DropState => s.(overlay := None)
    case Start(digest, reset, persist, fault, boots, removed) =>
      if digest !in s.cache then s
      else
        var p := PrepareDisk(s.overlay, digest, s.cache[digest], reset, persist, fault);
        if !p.ok then s.(overlay := p.overlay)
        else if boots && Bootable(p.overlay.value, s.cache) then s.(overlay := p.overlay, running := Some(persist))
        else s.(overlay := Unwind(p.overlay, persist, removed))
    case Write(block, value) =>
      if s.overlay.None? then s
      else s.(overlay := Some(s.overlay.value.(blocks := s.overlay.value.blocks[block := value])))
    case Stop(removed) => s.(overlay := Unwind(s.overlay, s.running != Some(false), removed), running := None)
  }

  /** What the guest sees: the overlay's block where there is one, else the base's. */
  function View(c: Context, s: State): Blocks
    requires s.overlay.Some? && s.overlay.value.backing in s.cache
  {
    var o := s.overlay.value;
    Decode(c, o.format, s.cache[o.backing]) + o.blocks
  }

  /* ---------- one mutable disk ---------- */

  /** The specification: no disk, one that cannot be used, or one with these blocks. */
  datatype Slot = Absent | Torn | Usable(blocks: Blocks)

  /** The disk, and whether a run that keeps it is on. */
  datatype Spec = Spec(disk: Slot, running: Option<bool>)

  /** The disk a start gets as far as having, and whether it may go on from there. */
  datatype Offer = Offer(disk: Slot, ok: bool)

  /** The disk in an image, which its first four bytes tell the kind of. */
  function Content(c: Context, image: Bytes): Blocks
    requires |image| >= 4
  {
    if image[0] == 0x51 && image[1] == 0x46 && image[2] == 0x49 && image[3] == 0xfb then c.qcow2(image) else c.raw(image)
  }

  /** A start keeps the disk there is, unless it asks for a fresh one. */
  function SpecPrepare(c: Context, disk: Slot, image: Bytes, renew: bool, fault: Option<PrepareFault>): Offer {
    if renew && fault == Some(RemoveFails) then Offer(disk, false)
    else if !renew && disk != Absent then Offer(disk, true)
    else if |image| < 4 || fault == Some(CreateFails) then Offer(Absent, false)
    else if fault == Some(CreateTears) then Offer(Torn, false)
    else Offer(Usable(Content(c, image)), true)
  }

  function SpecUnwind(disk: Slot, persist: bool, removed: bool): Slot {
    if !persist && removed then Absent else disk
  }

  /** One event on the specification, given the image the event names, if any, and
    * whether a start gets as far as running the guest. */
  function SpecStep(c: Context, a: Spec, e: Event, image: Bytes, up: bool): Spec {
    match e
    case Pull(_, _) => a
    case Evict(_) => a
    case DropState => a.(disk := Absent)
    case Start(_, reset, persist, fault, _, removed) =>
      var offer := SpecPrepare(c, a.disk, image, reset || !persist, fault);
      if !offer.ok then a.(disk := offer.disk)
      else if up then Spec(offer.disk, Some(persist))
      else a.(disk := SpecUnwind(offer.disk, persist, removed))
    case Write(block, value) => if a.disk.Usable? then a.(disk := Usable(a.disk.blocks[block := value])) else a
    case Stop(removed) => Spec(SpecUnwind(a.disk, a.running != Some(false), removed), None)
  }

  function ImageOf(s: State, e: Event): Bytes {
    if e.Start? && e.digest in s.cache then s.cache[e.digest] else []
  }

  ghost predicate History(c: Context, s: State, es: seq<Event>)
    decreases |es|
  {
    es == [] || (Possible(c, s, es[0]) && History(c, Step(s, es[0]), es[1..]))
  }

  function Replay(s: State, es: seq<Event>): State
    decreases |es|
  {
    if es == [] then s else Replay(Step(s, es[0]), es[1..])
  }

  lemma {:induction false} HistoryAppend(c: Context, s: State, es: seq<Event>, more: seq<Event>)
    requires History(c, s, es) && History(c, Replay(s, es), more)
    ensures History(c, s, es + more) && Replay(s, es + more) == Replay(Replay(s, es), more)
    decreases |es|
  {
    if es == [] {
      assert es + more == more;
    } else {
      HistoryAppend(c, Step(s, es[0]), es[1..], more);
      assert (es + more)[1..] == es[1..] + more;
    }
  }

  function SpecReplay(c: Context, s: State, a: Spec, es: seq<Event>): Spec
    decreases |es|
  {
    if es == [] then a
    else
      var t := Step(s, es[0]);
      SpecReplay(c, t, SpecStep(c, a, es[0], ImageOf(s, es[0]), t.running.Some?), es[1..])
  }

  /** Every image that was ever pulled. */
  function Images(es: seq<Event>): set<Bytes> {
    if es == [] then {} else (if es[0].Pull? then {es[0].bytes} else {}) + Images(es[1..])
  }

  /* ---------- the refinement ---------- */

  /** Every cached file hashes to its name and was pulled. */
  ghost predicate Intact(c: Context, cache: map<string, Bytes>, images: set<Bytes>) {
    forall d :: d in cache ==> c.sha(cache[d]) == d && cache[d] in images
  }

  /** The overlay was made over an image that hashes to its backing path's name; over
    * that image it shows these blocks. */
  ghost predicate Backed(c: Context, o: Overlay, disk: Blocks, image: Bytes) {
    && o.whole && c.sha(image) == o.backing
    && DiskFormat(image) == Some(o.format)
    && disk == Decode(c, o.format, image) + o.blocks
  }

  ghost predicate Shows(c: Context, overlay: Option<Overlay>, disk: Slot, images: set<Bytes>) {
    match disk
    case Absent => overlay.None?
    case Torn => overlay.Some? && !overlay.value.whole
    case Usable(blocks) => overlay.Some? && exists image :: image in images && Backed(c, overlay.value, blocks, image)
  }

  ghost predicate Refines(c: Context, s: State, a: Spec, images: set<Bytes>) {
    && Intact(c, s.cache, images)
    && s.running == a.running
    && Shows(c, s.overlay, a.disk, images)
    && (s.running.Some? ==> s.overlay.Some? && Bootable(s.overlay.value, s.cache))
  }

  lemma PrepareShows(c: Context, s: State, disk: Slot, digest: string, reset: bool, persist: bool,
                     fault: Option<PrepareFault>, images: set<Bytes>)
    requires Intact(c, s.cache, images) && digest in s.cache && Shows(c, s.overlay, disk, images)
    ensures var p := PrepareDisk(s.overlay, digest, s.cache[digest], reset, persist, fault);
            var offer := SpecPrepare(c, disk, s.cache[digest], reset || !persist, fault);
            p.ok == offer.ok && Shows(c, p.overlay, offer.disk, images)
  {
    var image := s.cache[digest];
    var p := PrepareDisk(s.overlay, digest, image, reset, persist, fault);
    var offer := SpecPrepare(c, disk, image, reset || !persist, fault);
    if |image| >= 4 {
      assert image[..4] == [image[0], image[1], image[2], image[3]];
    }
    if offer.disk != disk && offer.disk.Usable? {
      assert Decode(c, p.overlay.value.format, image) + map[] == Decode(c, p.overlay.value.format, image);
      assert Backed(c, p.overlay.value, offer.disk.blocks, image);
    }
  }

  lemma WriteShows(c: Context, o: Overlay, disk: Slot, block: nat, value: int, images: set<Bytes>)
    requires o.whole && Shows(c, Some(o), disk, images)
    ensures disk.Usable?
    ensures Shows(c, Some(o.(blocks := o.blocks[block := value])), Usable(disk.blocks[block := value]), images)
  {
    var image :| image in images && Backed(c, o, disk.blocks, image);
    assert (Decode(c, o.format, image) + o.blocks)[block := value] == Decode(c, o.format, image) + o.blocks[block := value];
    assert Backed(c, o.(blocks := o.blocks[block := value]), disk.blocks[block := value], image);
  }

  lemma StepRefines(c: Context, s: State, a: Spec, e: Event, images: set<Bytes>)
    requires Refines(c, s, a, images) && Possible(c, s, e) && (e.Pull? ==> e.bytes in images)
    ensures var t := Step(s, e);
            Refines(c, t, SpecStep(c, a, e, ImageOf(s, e), t.running.Some?), images)
  {
    if e.Start? {
      PrepareShows(c, s, a.disk, e.digest, e.reset, e.persist, e.fault, images);
    } else if e.Write? {
      WriteShows(c, s.overlay.value, a.disk, e.block, e.value, images);
    }
  }

  lemma {:induction false} HistoryRefines(c: Context, s: State, a: Spec, es: seq<Event>, images: set<Bytes>)
    requires Refines(c, s, a, images) && History(c, s, es) && Images(es) <= images
    ensures Refines(c, Replay(s, es), SpecReplay(c, s, a, es), images)
    decreases |es|
  {
    if es != [] {
      StepRefines(c, s, a, es[0], images);
      var t := Step(s, es[0]);
      HistoryRefines(c, t, SpecStep(c, a, es[0], ImageOf(s, es[0]), t.running.Some?), es[1..], images);
    }
  }

  /** Disk refinement and backing-file agreement: after any history, whenever QEMU can
    * open the overlay, the guest sees the specification's disk. */
  lemma GuestSeesOneDisk(c: Context, es: seq<Event>)
    requires CollisionFree(c.sha, Images(es)) && History(c, INITIAL, es)
    ensures var s := Replay(INITIAL, es);
            var a := SpecReplay(c, INITIAL, Spec(Absent, None), es);
            && s.running == a.running
            && (s.overlay.None? <==> a.disk.Absent?)
            && (s.overlay.Some? ==> (s.overlay.value.whole <==> a.disk.Usable?))
            && (s.running.Some? ==> s.overlay.Some? && Bootable(s.overlay.value, s.cache))
            && (s.overlay.Some? && Bootable(s.overlay.value, s.cache) ==> a.disk == Usable(View(c, s)))
  {
    HistoryRefines(c, INITIAL, Spec(Absent, None), es, Images(es));
    var s := Replay(INITIAL, es);
    var a := SpecReplay(c, INITIAL, Spec(Absent, None), es);
    if s.overlay.Some? && Bootable(s.overlay.value, s.cache) {
      var image :| image in Images(es) && Backed(c, s.overlay.value, a.disk.blocks, image);
      assert c.sha(s.cache[s.overlay.value.backing]) == c.sha(image);
    }
  }

  /* ---------- the base never changes ---------- */

  lemma {:induction false} HistoryKeepsIntact(c: Context, s: State, es: seq<Event>, images: set<Bytes>)
    requires Intact(c, s.cache, images) && History(c, s, es) && Images(es) <= images
    ensures Intact(c, Replay(s, es).cache, images)
    decreases |es|
  {
    if es != [] {
      HistoryKeepsIntact(c, Step(s, es[0]), es[1..], images);
    }
  }

  /** A base image keeps its bytes for ever: even cleaned and pulled again, the file
    * under a name is the file that was there. */
  lemma BaseNeverChanges(c: Context, es: seq<Event>, more: seq<Event>, digest: string)
    requires CollisionFree(c.sha, Images(es) + Images(more))
    requires History(c, INITIAL, es) && History(c, Replay(INITIAL, es), more)
    requires digest in Replay(INITIAL, es).cache && digest in Replay(Replay(INITIAL, es), more).cache
    ensures Replay(Replay(INITIAL, es), more).cache[digest] == Replay(INITIAL, es).cache[digest]
  {
    var images := Images(es) + Images(more);
    HistoryKeepsIntact(c, INITIAL, es, images);
    HistoryKeepsIntact(c, Replay(INITIAL, es), more, images);
  }

  /* ---------- ephemeral runs ---------- */

  function Writes(ws: seq<(nat, int)>): seq<Event> {
    if ws == [] then [] else [Write(ws[0].0, ws[0].1)] + Writes(ws[1..])
  }

  function Written(blocks: Blocks, ws: seq<(nat, int)>): Blocks
    decreases |ws|
  {
    if ws == [] then blocks else Written(blocks[ws[0].0 := ws[0].1], ws[1..])
  }

  lemma {:induction false} WrittenSnoc(blocks: Blocks, ws: seq<(nat, int)>, w: (nat, int))
    ensures Written(blocks, ws + [w]) == Written(blocks, ws)[w.0 := w.1]
    decreases |ws|
  {
    if ws == [] {
      assert (ws + [w])[1..] == [];
    } else {
      WrittenSnoc(blocks[ws[0].0 := ws[0].1], ws[1..], w);
      assert (ws + [w])[1..] == ws[1..] + [w];
    }
  }

  lemma {:induction false} ReplayWrites(s: State, ws: seq<(nat, int)>, last: Event)
    requires s.overlay.Some?
    ensures var t := s.(overlay := Some(s.overlay.value.(blocks := Written(s.overlay.value.blocks, ws))));
            Replay(s, Writes(ws) + [last]) == Step(t, last)
    decreases |ws|
  {
    if ws == [] {
      assert Writes(ws) + [last] == [last];
    } else {
      var all := Writes(ws) + [last];
      assert all[0] == Write(ws[0].0, ws[0].1) && all[1..] == Writes(ws[1..]) + [last];
      ReplayWrites(Step(s, all[0]), ws[1..], last);
    }
  }

  lemma {:induction false} WritesPossible(c: Context, s: State, ws: seq<(nat, int)>, removed: bool)
    requires s.running.Some? && s.overlay.Some?
    ensures History(c, s, Writes(ws) + [Stop(removed)])
    decreases |ws|
  {
    var all := Writes(ws) + [Stop(removed)];
    if ws == [] {
      assert all == [Stop(removed)] && all[1..] == [];
    } else {
      assert all[0] == Write(ws[0].0, ws[0].1) && all[1..] == Writes(ws[1..]) + [Stop(removed)];
      WritesPossible(c, Step(s, all[0]), ws[1..], removed);
    }
  }

  /** An ephemeral run starts on a fresh disk whatever was there before. Its disk is
    * gone exactly when the deferred removal ran and succeeded; otherwise the next
    * persistent start without a reset boots from it, whatever image it names. */
  lemma EphemeralRun(s: State, digest: string, reset: bool, ws: seq<(nat, int)>, removed: bool, next: string)
    requires digest in s.cache && DiskFormat(s.cache[digest]).Some? && next in s.cache
    ensures var t := Replay(s, [Start(digest, reset, false, None, true, true)] + (Writes(ws) + [Stop(removed)]));
            var left := Overlay(digest, DiskFormat(s.cache[digest]).value, Written(map[], ws), true);
            && t.running.None? && t.cache == s.cache
            && (t.overlay == None <==> removed)
            && (!removed ==> t.overlay == Some(left))
            && (!removed ==> Step(t, Start(next, false, true, None, true, true)) == State(s.cache, Some(left), Some(true)))
  {
    var start := Start(digest, reset, false, None, true, true);
    var all := [start] + (Writes(ws) + [Stop(removed)]);
    assert all[0] == start && all[1..] == Writes(ws) + [Stop(removed)];
    ReplayWrites(Step(s, start), ws, Stop(removed));
  }

  /* ---------- a torn overlay ---------- */

  /** The event asks for a fresh disk, or removes the state directory. */
  predicate Renews(e: Event) {
    (e.Start? && (e.reset || !e.persist)) || e.DropState?
  }

  /** A torn overlay passes for a disk: as long as nobody asks for a fresh one, no
    * start boots and the file stays as it is. */
  lemma {:induction false} TornBlocks(c: Context, s: State, es: seq<Event>)
    requires s.overlay.Some? && !s.overlay.value.whole && s.running.None? && History(c, s, es)
    requires forall i :: 0 <= i < |es| ==> !Renews(es[i])
    ensures Replay(s, es).overlay == s.overlay && Replay(s, es).running.None?
    decreases |es|
  {
    if es != [] {
      TornBlocks(c, Step(s, es[0]), es[1..]);
    }
  }

  /** However long that goes on, the next start boots exactly when it asks for a fresh disk. */
  lemma TornBootsIff(c: Context, s: State, es: seq<Event>, digest: string, reset: bool, persist: bool, removed: bool)
    requires s.overlay.Some? && !s.overlay.value.whole && s.running.None? && History(c, s, es)
    requires forall i :: 0 <= i < |es| ==> !Renews(es[i])
    requires digest in Replay(s, es).cache && DiskFormat(Replay(s, es).cache[digest]).Some?
    ensures Step(Replay(s, es), Start(digest, reset, persist, None, true, removed)).running.Some? <==> reset || !persist
  {
    TornBlocks(c, s, es);
  }
}
