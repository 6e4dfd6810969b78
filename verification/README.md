# A verified model of dvm

dvm starts a virtual machine from OCI images. It pulls a kernel, an initrd and a
root disk into a content-addressed cache, installs a QEMU build, takes a lock on a
state directory, puts a copy-on-write overlay over the cached disk, starts QEMU
with whichever accelerator works, and supervises it until it powers off. This
project models the parts of dvm that must stay right under concurrency, crashes and
failing system calls, and the text codecs around them, and proves what they
promise. `dafny verify dfyconfig.toml` checks all of it.

## Modules

- `LockProtocol`: `AcquireLock` as a step system of unboundedly many launchers; one
  step a system call, with crashes, failing calls, a half-made (empty) lock file and
  process ids that may be reused. `VmState` is the call itself, by one launcher,
  proved to be a run of that system.
- `LaunchSystem`: the launchers' phases around QEMU, the overlay and the pid file, on
  top of the lock. `Supervision` is `Options.Run` with its deferred calls, the
  accelerator fallback, `supervise` and `shutdown` over child processes with
  one-slot `done` channels. `Startup` puts lock, run and release together.
- `Disk`: overlay plus base against a single mutable disk, over any history.
  `CacheHistory` shows that whatever happens to the store is such a history.
- `BlobStore`: concurrent `PutStream` calls as a step system, and the cache object of
  one process. `Layers` and `Pull` choose and fetch a layer on top of it.
- `Install`: `EnsureQEMU` with a crash possible after every micro-step, on top of
  `Archive` (what an extraction means), `PathCleaning` (`filepath.Clean` and the
  containment check) and `Checksums`.
- `Qmp`: the request/response client in the presence of events.
- `Ports`: port specs from the flag's text to QEMU's `-nic` argument and back.
- `LeaseFile`, `ArpTable`: finding a guest's address.
- `Accel`: the accelerator candidates. `Text`, `Wrappers`, `Faults`: shared helpers.

A class stands where the source updates an object or files in place. A `select` is
a nondeterministic choice among the ready cases. A parameter `calm` says that a call
meets neither a crash nor a failing system call; without it both may happen
anywhere, and the contracts that mention it say what the call achieves when nothing
goes wrong. Proof-only facts (who created a lock file, what run a call amounts to)
are ghost state.

## Where the code does less than it seems to promise

- Mutual exclusion is not unconditional. A rival that reads the lock file between
  its creation and the write of the pid takes it for stale
  (`LockProtocol.EmptyReadHappens`), and of two launchers that judged the same dead
  holder the slower one removes the faster one's new lock
  (`LockProtocol.LateRemoveHappens`). A run stays safe exactly when no reclaim
  removes the file of a launcher inside the lock (`LockProtocol.RunSafeIff`).
- A stale lock that records the contender's own process id, as happens to a launcher
  that is always process 1 of a container, is never reclaimed; a lone contender
  acquires exactly when that is not the case
  (`LockProtocol.LoneContenderAcquiresIff`).
- One QEMU per state directory is not unconditional either. It is safe throughout a
  run exactly when no reclaim removes the file of a launcher inside the lock and no
  launcher dies while its QEMU runs (`LaunchSystem.RunSafeIff`); every single step
  that is otherwise can be continued to two QEMU processes on one overlay, whatever
  the launcher that lost its lock was doing.
- A `ClearPID` that fails is ignored, and leaves a pid file that names a child already
  gone; in an orderly run the file means what it should exactly when that does not
  happen (`LaunchSystem.PidFileMeaningfulIff`).
- An ephemeral run's disk is gone exactly when the deferred removal ran and
  succeeded. A run that is killed, or whose removal fails (the error is dropped),
  leaves it, and the next persistent start boots from it (`Disk.EphemeralRun`).
- A `qemu-img` that dies part-way leaves a file that passes for an overlay: no start
  boots until one asks for a fresh disk (`Disk.TornBlocks`, `Disk.TornBootsIff`).
- `EnsureQEMU` ignores a failure to clear its stage directory. What was left there
  ends up in the installation unless the archive overwrites it with the same mode;
  the condition is exact (`Install.GenuineIsArchiveIff`), and a stray file beside an
  archive of one file does end up there (`Archive.StrayEndsUp`).
- A path written twice by an archive keeps the data of the last entry under the mode
  of the first one (`Archive.ExtractMeaning`).
- `negotiate` takes the first message for the greeting, whatever it is. Every reply
  of a session belongs to its command, whatever the server answers, exactly when
  nothing but events was unread after that message, or what was unread passes for a
  refusal and ends the session (`Qmp.SynchronisedIff`). An event ahead of the greeting
  is enough to get every reply one command late (`Qmp.EarlyEventDesynchronises`).
- The comment on `AccelCandidates` says tcg is always appended as a final fallback;
  the code keeps tcg where the preference lists it (`Accel.AccelCandidates`).

## Model

| member | source | states |
|---|---|---|
| `LockProtocol.CarefulRunsAreExclusive` | internal/vm/state.go:41-64 | In every interleaving with crashes and faults in which each reclaim deletes the generation it read and read a written pid, at most one live launcher is in the lock and its generation is the one on disk. |
| `LockProtocol.RunSafeIff` | internal/vm/state.go:41-64 | The exact condition: a run stays safe throughout if and only if no reclaim removes the file of a launcher inside the lock. |
| `LockProtocol.ReclaimSafeIff` | internal/vm/state.go:58-61 | The same for one reclaiming remove. |
| `LockProtocol.CarefulIsSparing` | internal/vm/state.go:53-61 | A remove of the generation that was read, with a written pid, never hits a launcher inside the lock. |
| `LockProtocol.StepKeepsInv` | internal/vm/state.go:41-64 | Every step of every launcher keeps the invariant: the file's owner and pid, what readers may know, distinct live pids. |
| `LockProtocol.LostFileIsUnsafe` | internal/vm/state.go:44-48 | Once the file of a launcher inside the lock is gone, a newcomer makes two holders. |
| `LockProtocol.EmptyReadHazard` | internal/vm/state.go:44-59 | From any state with a half-made lock, a rival removes it although the generation matches. |
| `LockProtocol.EmptyReadHappens` | internal/vm/state.go:44-59 | That happens to two launchers in an empty directory. |
| `LockProtocol.LateRemoveHazard` | internal/vm/state.go:54-59 | Of two launchers about to remove the same dead holder's file, the slower one removes the faster one's new lock although it read a written pid. |
| `LockProtocol.LateRemoveHappens` | internal/vm/state.go:54-59 | That happens with two launchers and one dead holder. |
| `LockProtocol.LoneContenderAcquiresIff` | internal/vm/state.go:43-62 | Undisturbed, a lone contender ends with the lock within two attempts and six steps, if and only if the recorded pid is not its own. |
| `LockProtocol.NewcomerTakesOver` | internal/vm/state.go:43-62 | A newcomer facing a dead holder's file gets the lock in seven steps without touching anyone's. |
| `VmState.StateDir.AcquireLock` | internal/vm/state.go:41-64 | The call is a run of the step system that ends holding the lock exactly on success; undisturbed it succeeds if and only if no reportedly live process is recorded. |
| `VmState.StateDir.FinishCreate` | internal/vm/state.go:44-49 | After the exclusive create the caller holds a new generation that records its pid. |
| `VmState.StateDir.Reclaim` | internal/vm/state.go:53-61 | An existing lock is either reported as held by the recorded live pid or removed. |
| `VmState.StateDir.RemoveStale` | internal/vm/state.go:58-61 | The stale file is gone, or the removal's error is returned and nothing changed. |
| `VmState.StateDir.Release` | internal/vm/state.go:48 | The release step, with the file gone, or the step of a release whose remove failed, with the file left. |
| `VmState.PidRoundTrip` | internal/vm/state.go:77-87 | A pid is read back from the text that was written, and an empty file reads as none. |
| `LaunchSystem.RunSafeIff` | internal/vm/lifecycle.go:54-145 | Whole-system safety, with its exact condition: for any number of launchers and every run from an initial state, no state reached ever lets two QEMU processes share the overlay, if and only if every reclaim spares the file of a launcher inside the lock and no launcher dies before its child. |
| `LaunchSystem.OrderlyRunsHaveOneQemu` | internal/app/app.go:401-405 | After any such run at most one QEMU has the overlay open, and its launcher lives and holds the lock that is on disk. |
| `LaunchSystem.StepSafeIff` | internal/vm/lifecycle.go:54-145 | The same condition for one step. |
| `LaunchSystem.BadReclaimIsUnsafe` | internal/vm/state.go:58-61 | A reclaim that removes the file of a launcher inside the lock can be continued to two QEMU processes on one overlay. |
| `LaunchSystem.VictimIsUnsafe` | internal/vm/lifecycle.go:54-145 | So can every state in which a launcher inside the lock has lost its file, whatever phase it is in. |
| `LaunchSystem.VictimReleases` | internal/vm/state.go:48 | A launcher that lost its file releases the newcomer's lock while the newcomer's QEMU runs, so a third one starts. |
| `LaunchSystem.CarefulRunsAreOrderly` | internal/vm/lifecycle.go:54-145 | The same holds under the careful reclaims of the lock protocol. |
| `LaunchSystem.StepKeepsInv` | internal/vm/lifecycle.go:54-145 | Every step of every launcher keeps the whole-system invariant. |
| `LaunchSystem.OverlayChangesAreExclusive` | internal/vm/lifecycle.go:147-157 | Whoever removes or creates the overlay is the only lock holder, and no QEMU runs. |
| `LaunchSystem.CrashSafeIff` | internal/vm/lifecycle.go:201-219 | A launcher's death is harmless if and only if its child is not running. |
| `LaunchSystem.OrphanIsUnsafe` | internal/vm/lifecycle.go:201-219 | A QEMU that outlives its launcher will have company. |
| `LaunchSystem.PidFileMeaningfulIff` | internal/vm/state.go:67-75 | Throughout an orderly run a pid file that names a live launcher's child names one that is supervised or just reaped, if and only if no `ClearPID` fails on its launcher's own file. |
| `LaunchSystem.StepKeepsPidFileIff` | internal/vm/state.go:67-75 | The same for one step. |
| `LaunchSystem.StartsQemu` | internal/vm/lifecycle.go:54-106 | Three steps of a lock holder that has not started yet bring its QEMU up and leave everyone else alone. |
| `LaunchSystem.NewcomerStarts` | internal/vm/state.go:43-49 | While there is no lock file a newcomer brings a QEMU up, leaving everyone else alone. |
| `Startup.StartQEMU` | internal/app/app.go:401-459 | From start to return the call is a run of the whole system by this launcher only; no child is left; without the lock overlay and pid file are untouched, with it they are what the run made of them, the starts account for the result, and the lock is released unless its removal failed. |
| `Startup.RunAndRelease` | internal/app/app.go:405-459 | The same from the moment the lock is held. |
| `Startup.Locked` | internal/app/app.go:407-459 | What happens under the lock keeps the lock as it was and leaves no child; the overlay is what the disk machine makes of the run, faults included, and a successful run leaves none exactly when it was dropped. |
| `Startup.LockRunLifts` | internal/app/app.go:401-405 | A run of the lock protocol by one launcher is a run of the whole system. |
| `Supervision.Launcher.Run` | internal/vm/lifecycle.go:54-145 | On return every child ever started has exited and was received from once; the log is starts, pid file, supervision and deferred calls in that order, the starts being candidate k after k tried in vain, or all of them in vain, or none, as the result says; the pid file is what its write and its removal left; and the overlay, whatever failed on the way, is what the disk machine makes of the run. |
| `Supervision.Launcher.RunPrepared` | internal/vm/lifecycle.go:66-145 | The same from the prepared disk on: the overlay is the prepared one with the guest's writes, or gone when the deferred removal of an ephemeral run succeeded. |
| `Supervision.Launcher.SetUpAndSupervise` | internal/vm/lifecycle.go:71-144 | No candidate is tried when the seed or the control channels fail. |
| `Supervision.Launcher.StartAndSupervise` | internal/vm/lifecycle.go:104-144 | The starts account for the result, and a survivor is supervised to its end, which is an error exactly when it exited by itself with a non-zero status. |
| `Supervision.Launcher.RecordAndSupervise` | internal/vm/lifecycle.go:108-144 | The pid file is written, torn or not written, supervision runs, and the pid file is removed or its removal fails, whatever the outcome. |
| `Supervision.Launcher.WritePid` | internal/vm/state.go:67-69 | The pid file names the child, or is torn by a write that failed part-way, or is unchanged. |
| `Supervision.Launcher.ClearPid` | internal/vm/state.go:74-75 | The pid file is gone, or its removal failed and it is unchanged. |
| `Supervision.Launcher.PrepareDisk` | internal/vm/lifecycle.go:147-157 | What is left at the overlay's path is what `prepareDisk` specifies for the fault that was met: old file kept, none, or a torn one; on success none was met. |
| `Supervision.Launcher.RemoveOld` | internal/vm/overlay.go:61-67 | The old overlay is gone, or the removal failed and it is unchanged. |
| `Supervision.Launcher.CreateOverlay` | internal/vm/overlay.go:22-40 | A new empty overlay over the base, or nothing, or a torn file. |
| `Supervision.Launcher.Unwind` | internal/vm/lifecycle.go:67-69 | The deferred removal drops the overlay of an ephemeral run and only of one. |
| `Supervision.Launcher.StartQemu` | internal/vm/lifecycle.go:201-219 | A new child with an empty `done` is in the table, or nothing changed but the log. |
| `Supervision.Launcher.Exit` | internal/vm/lifecycle.go:213-217 | An exiting child posts its status once. |
| `Supervision.Launcher.Receive` | internal/vm/lifecycle.go:255-256 | Receiving yields the status that was posted, empties `done` and counts the receipt; the child is reaped. |
| `Supervision.Launcher.TryCandidate` | internal/vm/lifecycle.go:178-193 | One candidate: it failed to start, exited and was reaped, or survived its grace period. |
| `Supervision.Launcher.StartWithAccelFallback` | internal/vm/lifecycle.go:161-199 | Success names candidate k, all earlier ones having been tried in vain; an error means the builder refused at the first candidate or all were tried in vain, with no child alive. |
| `Supervision.Launcher.Supervise` | internal/vm/lifecycle.go:254-269 | The child is reaped; an error is returned if and only if the guest exited by itself with a non-zero status. |
| `Supervision.Launcher.Shutdown` | internal/vm/lifecycle.go:285-310 | Power-down when there is a control channel, then the waiting shape, and the child is reaped. |
| `Supervision.Launcher.AwaitExit` | internal/vm/lifecycle.go:292-309 | Wait; after a timeout terminate and wait; after another kill and wait; then reaped. |
| `Supervision.Launcher.AwaitTermination` | internal/vm/lifecycle.go:300-309 | Wait; after a timeout kill and wait; then reaped. |
| `Supervision.SupervisionEscalates` | internal/vm/lifecycle.go:254-310 | Whatever way supervision ends, `done` is received exactly once and last, power-down, terminate and kill come at most once and in that order, the last two right after a timeout. |
| `Supervision.ShutdownEscalates` | internal/vm/lifecycle.go:285-310 | The same for a shutdown alone. |
| `Supervision.InVainReaps` | internal/vm/lifecycle.go:168-194 | Among candidates tried in vain each start is followed at once by the receipt of that child's exit. |
| `Supervision.OneMoreInVain` | internal/vm/lifecycle.go:168-194 | One more candidate in vain extends the list of those tried, in order. |
| `Supervision.DiskHistoryEffect` | internal/vm/lifecycle.go:63-69 | A run's effect on a prepared overlay is the disk machine's: written by the guest, then kept or dropped. |
| `Supervision.FailedHistoryEffect` | internal/vm/lifecycle.go:64-66 | The effect of a run whose preparation failed is the disk machine's as well. |
| `Supervision.DiskHistoryPossible` | internal/vm/lifecycle.go:54-145 | The events a run amounts to are a possible history of the disk machine, so the refinement applies to it. |
| `Supervision.Candidates` | internal/vm/lifecycle.go:162-165 | The configured candidates, or the accelerator of the spec when there are none. |
| `Accel.AccelCandidates` | internal/qemu/accel.go:27-47 | For a configured preference: no duplicates, exactly its usable names and tcg, in the order of their first occurrence, tcg last only when not listed; for none: the accelerator of the host when it is there, then tcg. |
| `Accel.Prune` | internal/qemu/accel.go:31-45 | The loop keeps exactly that. |
| `Accel.DefaultPreference` | internal/qemu/accel.go:7-18 | The built-in preference is never empty. |
| `Accel.DefaultOrder` | internal/qemu/accel.go:7-18 | Whatever keeps exactly that of a built-in preference is the accelerator of the host when it is there, then tcg. |
| `Disk.GuestSeesOneDisk` | internal/vm/overlay.go:22-40 | After any history of pulls, evictions, starts with any fault, guest writes and stops, whenever QEMU can open the overlay the guest sees exactly the disk of a specification with one mutable disk, provided no two pulled images collide; the overlay is absent, torn or usable exactly when the disk is. |
| `Disk.StepRefines` | internal/vm/lifecycle.go:147-157 | Every event keeps overlay plus base equal to the specification's disk; reset and ephemeral starts make a fresh one, others carry it over. |
| `Disk.PrepareShows` | internal/vm/lifecycle.go:147-157 | A preparation, with any fault, leaves what the specification's leaves. |
| `Disk.OverlayFormat` | internal/vm/overlay.go:22-58 | A new overlay says qcow2 if and only if its base starts with the bytes 51 46 49 fb, and is made over every base of at least four bytes. |
| `Disk.HistoryRefines` | internal/vm/lifecycle.go:63-69 | The same over whole histories. |
| `Disk.BaseNeverChanges` | internal/app/app.go:617-630 | A base keeps its bytes for ever: cleaned and pulled again, the file under a name holds what it held when an overlay was made over it. |
| `Disk.EphemeralRun` | internal/vm/lifecycle.go:67-69 | An ephemeral run starts fresh; its disk is gone if and only if the deferred removal ran and succeeded, and otherwise the next persistent start boots from it. |
| `Disk.TornBlocks` | internal/vm/overlay.go:22-25 | A torn overlay stays and blocks every start as long as none asks for a fresh disk and the state is not cleaned. |
| `Disk.TornBootsIff` | internal/vm/overlay.go:22-25 | However long that went on, the next start boots if and only if it asks for a fresh disk. |
| `BlobStore.StoreStaysIntact` | internal/cache/cache.go:69-107 | Over all interleavings of calls, crashes and cleaning, every file under a final name is in the sha256 area, named by 64 lowercase hex digits and hashes to its name. |
| `BlobStore.EveryStoreIsIntact` | internal/cache/cache.go:69-107 | The same for every run from an empty store. |
| `BlobStore.SuccessStaysBound` | internal/cache/cache.go:69-107 | The path a call returned is its digest's and holds bytes hashing to it, whatever other calls and crashes do, until somebody unlinks it. |
| `BlobStore.StepKeepsInv` | internal/cache/cache.go:69-107 | Every step keeps that and what each call knows about its temporary file. |
| `BlobStore.StepOnCommitted` | internal/cache/cache.go:69-107 | A step leaves the committed map alone, or binds one name to bytes hashing to it, or is a clean that unbinds one. |
| `BlobStore.BlobsAreImmutable` | internal/cache/cache.go:69-107 | A bound name never changes its bytes, unless the old and the new bytes are themselves a hash collision. |
| `BlobStore.RenameCommits` | internal/cache/cache.go:99-106 | A matched call that finds its temporary file commits its digest's path at the rename. |
| `BlobStore.TempsAreInvisible` | internal/cache/cache.go:84-89 | Temporary files never show in the committed map. |
| `BlobStore.BlobIsNoTemp` | internal/cache/cache.go:33-51 | No digest maps to a temporary name. |
| `BlobStore.BlobPathIff` | internal/cache/cache.go:33-51 | A digest has a path if and only if it is an algorithm, a colon and an even number of hexadecimal digits in either case, and the path is those two. |
| `BlobStore.Sha256Path` | internal/cache/cache.go:33-51 | Every sha256 digest has its path in the sha256 area. |
| `BlobStore.Cache.PutStream` | internal/cache/cache.go:69-107 | One undisturbed call is a run of the step system that ends in what it returns: all or nothing, a hit returns the path unread, success is for the sha256 digest of the returned path, and without faults a stream that ends well is stored under the digest of its bytes and under no other. |
| `BlobStore.Cache.Begin` | internal/cache/cache.go:70-87 | A bad digest is refused, a hit is returned, otherwise an empty temporary file is there. |
| `BlobStore.Cache.Fill` | internal/cache/cache.go:89-106 | The temporary file becomes the blob if and only if its bytes hash to the name; otherwise at most it is left over. |
| `BlobStore.Cache.CopyInto` | internal/cache/cache.go:91-98 | What reached the file is what the hash was fed, the whole stream on success; the steps are copy steps of the system. |
| `BlobStore.Cache.WriteChunk` | internal/cache/cache.go:92 | A write appends the chunk, or part of it when it fails. |
| `BlobStore.Cache.CloseFile` | internal/cache/cache.go:93-98 | The copy counts only when the reader ended well and the close worked. |
| `BlobStore.Cache.Commit` | internal/cache/cache.go:99-106 | Only matching bytes are renamed to the final path. |
| `BlobStore.Cache.Discard` | internal/cache/cache.go:89 | The deferred removal removes the temporary file or is dropped. |
| `BlobStore.Cache.Verify` | internal/cache/cache.go:110-129 | Accepts exactly the digests whose file is there and hashes to its name. |
| `CacheHistory.StoreRunIsHistory` | internal/cache/cache.go:69-107 | Every run of the store, with crashes and cleaning while no machine runs, is a history of pulls and evictions of the disk machine that leaves its cache equal to the store and touches nothing else. |
| `CacheHistory.StepIsEvents` | internal/cache/cache.go:103 | The same for one step: only a rename pulls, only an unlink of a blob evicts. |
| `Layers.SelectPrimaryLayer` | internal/oci/manifest.go:43-65 | The earliest layer with an expected media type, else the earliest largest non-sidecar; fails exactly when neither exists. |
| `Layers.LargestPayload` | internal/oci/manifest.go:53-64 | The earliest among the largest layers that are no sidecars. |
| `Layers.PrimaryIsUnique` | internal/oci/manifest.go:43-65 | A manifest has at most one such layer. |
| `Layers.SidecarIff` | internal/oci/manifest.go:11-24 | A layer is a sidecar if and only if its media type starts with text/plain or contains provenance, or its title ends in .sha256 or .provenance.json. |
| `Layers.ExpectedIff` | internal/oci/manifest.go:28-37 | The table of expected media types, component by component. |
| `Layers.SelectPlatformManifest` | internal/oci/manifest.go:69-79 | The loop finds the first manifest that fits the platform. |
| `Layers.FirstFitIff` | internal/oci/manifest.go:69-79 | A manifest is chosen if and only if it is the earliest that fits; none is exactly when none fits. |
| `Layers.SidecarCarries` | internal/oci/manifest.go:83-93 | A text carries its first word, lowercased, if and only if that is 64 characters long. |
| `Pull.Fetch` | internal/oci/pull.go:73-127 | Success, by hit or download, means the primary layer of the manifest the reference leads to, bytes at the path hashing to its sha256 digest and no disagreeing sidecar; failure leaves the committed blobs unchanged; without faults it succeeds if and only if there is such a layer that is cached or delivered. |
| `Pull.FetchLayer` | internal/oci/pull.go:99-126 | The same for a chosen layer. |
| `Pull.VerifySidecar` | internal/oci/pull.go:178-204 | Accepts exactly when the first matching sidecar, if fetched and parsed, agrees with the digest. |
| `Pull.ResolveIff` | internal/oci/pull.go:132-157 | A reference of either index type leads to the first manifest for the architecture under Linux or no named system, any other to itself. |
| `Pull.OffersIff` | internal/oci/pull.go:82-93 | The layers a pull chooses from are those of the manifest the reference leads to. |
| `Install.Installer.EnsureQEMU` | internal/qemu/download.go:53-108 | In every state it can be left in, a marked destination is the complete extraction of a tarball that passed its listed checksum; an undisturbed run that finds no marker installs if and only if the download passes its checksum and its entries are admissible and do not clash. |
| `Install.Sessions` | internal/qemu/download.go:53-108 | The same over any sequence of runs with crashes anywhere; once installed, always installed. |
| `Install.GenuineIsArchiveIff` | internal/qemu/download.go:90-107 | Marker aside, the installed tree is the archive and nothing else if and only if the archive covers what the stage still held. |
| `Install.StagedIsGenuine` | internal/qemu/download.go:86-95 | A checked tarball that was extracted to its end makes a genuine tree. |
| `Install.Installer.DownloadToTemp` | internal/qemu/download.go:110-130 | On success the file holds the download; on an error it is gone. |
| `Install.Installer.InstallDownloaded` | internal/qemu/download.go:78-107 | Only a checksummed tarball is installed; undisturbed, if and only if it is installable. |
| `Install.UnpackableIff` | internal/qemu/download.go:91-105 | A tarball can be installed if and only if it reads to its end, its entries are admissible and do not clash, and none needs a directory at the marker. |
| `Install.Installer.Stage` | internal/qemu/download.go:90-95 | On success the stage is the extraction over whatever was left there. |
| `Install.Installer.Commit` | internal/qemu/download.go:96-107 | At no moment is an incomplete tree marked. |
| `Install.Installer.RenameStage` | internal/qemu/download.go:100-102 | The stage becomes the destination only when nothing is there. |
| `Install.Installer.WriteMarker` | internal/qemu/download.go:103-105 | The marker is written into a genuine tree only. |
| `Install.RemoveAll` | internal/qemu/download.go:90-96 | What an interrupted or failing removal leaves is a real tree and part of the old one. |
| `Install.ExtractTarGz` | internal/qemu/download.go:195-246 | Success means the whole fold over a properly ended archive. |
| `Install.ExtractOne` | internal/qemu/download.go:210-244 | One turn of the loop does what the fold does with that entry, or fails where it fails. |
| `Install.WriteEntry` | internal/qemu/download.go:231-243 | The parents are made and the file is written, truncated first. |
| `Install.OpenEntry` | internal/qemu/download.go:232-238 | The parents are made and the file is opened empty, under its old mode if it existed. |
| `Install.CopyBody` | internal/qemu/download.go:239-243 | Success means the whole body; a crash may leave any part of it. |
| `Archive.ExtractMeaning` | internal/qemu/download.go:195-246 | The final tree, path by path: data of the last regular entry with that cleaned path under the mode of the first, a directory where one is needed, else what was there. |
| `Archive.EntryMeaning` | internal/qemu/download.go:218-244 | The same for one entry. |
| `Archive.ExtractSucceedsIff` | internal/qemu/download.go:195-246 | Extraction succeeds if and only if every entry is skipped or stays inside (and, as a file, is whole and has a name) and no path is wanted both as a file and as a directory, by the entries or by what is there. |
| `Archive.ExtractAfreshIff` | internal/qemu/download.go:195-246 | The same for an empty destination. |
| `Archive.EntrySucceedsIff` | internal/qemu/download.go:218-244 | The same for one entry. |
| `Archive.MkdirAllSucceedsIff` | internal/qemu/download.go:228 | Making directories fails exactly when a file is in the way; directories that exist are no obstacle. |
| `Archive.NothingElseAppears` | internal/qemu/download.go:218-233 | Every new node is at or above the target of an entry that passed the containment check. |
| `Archive.LeftoversHarmlessIff` | internal/qemu/download.go:90-92 | Extracting over leftovers gives the archive's own tree if and only if the archive covers them. |
| `Archive.HarmlessOutsideIff` | internal/qemu/download.go:90-92 | Away from any given set of paths, extracting over leftovers gives the archive's own tree if and only if the archive covers the leftovers there. |
| `Archive.StrayEndsUp` | internal/qemu/download.go:90-92 | A stray file in the stage stays beside an archive of one file. |
| `Archive.ExtractWithin` | internal/qemu/download.go:90-92 | Leftovers can make an extraction fail, never succeed. |
| `PathCleaning.CheckIsExact` | internal/qemu/download.go:218-225 | A relative name passes the check if and only if following it from any destination, however deep, ends at the destination or below. |
| `PathCleaning.UnsafeIff` | internal/qemu/download.go:218-224 | The textual test looks at exactly the first cleaned component. |
| `PathCleaning.CleanPartsShape` | internal/qemu/download.go:218 | `..` survives cleaning only as a leading component, and never in a rooted name. |
| `PathCleaning.AcceptedIsBelow` | internal/qemu/download.go:218-225 | An accepted entry's target is the destination followed by ordinary components. |
| `PathCleaning.WrittenWhereNamed` | internal/qemu/download.go:225 | An accepted relative name is written where following it leads. |
| `PathCleaning.WalkIsAttach` | internal/qemu/download.go:218-225 | Cleaning first and walking afterwards leads to the same place as walking. |
| `PathCleaning.RootedIsWalked` | internal/qemu/download.go:218 | A rooted name cleans to what following it from the root leads to. |
| `Checksums.ChecksumFromSums` | internal/qemu/download.go:183-191 | The loop returns the sum of the first line that lists the file. |
| `Checksums.ListingRoundTrip` | internal/qemu/download.go:183-191 | For any lines of words, with any gap behind the first, the lookup finds the lowercased first word of the first line whose last word is the name and whose first has 64 characters, or nothing. |
| `Checksums.VerifiesIff` | internal/qemu/download.go:161-179 | A file passes against a listed sum if and only if its hash is that sum. |
| `Checksums.VerifiesAnyCase` | internal/qemu/download.go:161-179 | A file passes if and only if its hash is the wanted sum, in whatever case that is written. |
| `Checksums.FirstSumIsLower` | internal/qemu/download.go:183-191 | A sum found is lowercase and 64 characters long. |
| `Qmp.Client.Execute` | internal/qemu/qmp.go:74-95 | The reply is the oldest unread answer, else the command's own; only events are skipped and the rest stays unread in order. |
| `Qmp.Client.Negotiate` | internal/qemu/qmp.go:60-70 | The first message is dropped and capabilities are negotiated on the rest. |
| `Qmp.Client.ExecuteAll` | internal/qemu/qmp.go:74-95 | The k-th reply of any command sequence is the k-th of the unread answers followed by the commands' own. |
| `Qmp.Session` | internal/qemu/qmp.go:23-47 | Dialling and any commands in a row: the replies are those of a fault-free session, as far as they go; a refused negotiation ends it. |
| `Qmp.SynchronisedIff` | internal/qemu/qmp.go:60-95 | For all servers and commands every reply belongs to its command, if and only if nothing but events was unread after the first message or the first unread answer is a refusal. |
| `Qmp.EarlyEventDesynchronises` | internal/qemu/qmp.go:60-70 | With an event ahead of the greeting the first command gets the answer to the negotiation. |
| `Qmp.OrderlyOpeningSynchronises` | internal/qemu/qmp.go:60-95 | After one greeting and any events every reply of every session is the answer to its own command and no answer is left unread. |
| `LeaseFile.LookupLease` | internal/vz/forward_darwin.go:95-117 | The loop is the scan; an unreadable file gives nothing. |
| `LeaseFile.LookupFindsLatest` | internal/vz/forward_darwin.go:95-117 | For any leases in brace-delimited blocks, with any other lines and indentation, the scan finds the address of the last lease to the hardware address, or nothing. |
| `LeaseFile.ScanLease` | internal/vz/forward_darwin.go:101-115 | One block, whatever is around it, contributes its last address and hardware address. |
| `LeaseFile.TabbedLease` | internal/vz/forward_darwin.go:101-115 | A lease with its fields behind tabs, the hardware address behind its type prefix, gives its address. |
| `LeaseFile.MacEqual` | internal/vz/forward_darwin.go:148-164 | True exactly when the field, its type prefix cut off, lists the address byte by byte. |
| `LeaseFile.MacRoundTrip` | internal/vz/forward_darwin.go:148-164 | An address in minimal hex, with or without a type prefix, matches exactly itself. |
| `LeaseFile.HexTable` | internal/vz/forward_darwin.go:158-161 | The sixteen hexadecimal digits in either case, and nothing else. |
| `LeaseFile.ParseHexSnoc` | internal/vz/forward_darwin.go:158 | One more digit makes sixteen times the value and the digit. |
| `ArpTable.LookupARP` | internal/vz/forward_darwin.go:123-144 | The loop returns the address on the first line that maps to the hardware address. |
| `ArpTable.ScanWords` | internal/vz/forward_darwin.go:131-138 | One pass finds the last parenthesised word and the word after the last `at`. |
| `ArpTable.ParenthesisedIff` | internal/vz/forward_darwin.go:132 | A word counts as an address exactly when it is something between parentheses. |
| `ArpTable.LookupFindsFirst` | internal/vz/forward_darwin.go:123-144 | For any table, incomplete entries included, the lookup finds the address of the first entry for the hardware address, or nothing. |
| `ArpTable.EntryMapsIff` | internal/vz/forward_darwin.go:129-141 | A table line maps to a hardware address if and only if it is that entry's. |
| `ArpTable.LineRoundTrip` | internal/vz/forward_darwin.go:129-138 | A table line reads back as the address and hardware address it was written with. |
| `Text.SpaceTable` | internal/vz/forward_darwin.go:102 | White space, by code point. |
| `Ports.ParsePortSpec` | internal/app/config.go:257-279 | The steps of the parser compute the parse, errors included. |
| `Ports.AcceptsIffNames` | internal/app/config.go:257-279 | A text is accepted as a forward if and only if it is two port numbers around a colon, white space around either allowed, then nothing (tcp) or a slash and tcp or udp in either case. |
| `Text.AtoiIff` | internal/app/config.go:270-275 | A numeral is digits, leading zeros included, after at most one sign. |
| `Text.NumberIff` | internal/app/config.go:270-275 | A text is a number exactly when it is not empty and all digits. |
| `Text.NumberSnoc` | internal/app/config.go:270-275 | One more digit makes ten times the value and the digit. |
| `Text.LowerTable` | internal/app/config.go:261 | The capital letters become small ones and nothing else changes. |
| `Ports.SpecRoundTrip` | internal/app/config.go:257-279 | Every port pair in 1..65535 with tcp or udp is read back from its own text. |
| `Ports.Config.MergePorts` | internal/app/app.go:160-166 | The accepted specs are appended in order; the others are dropped. |
| `Ports.AcceptedInRange` | internal/app/app.go:160-166 | Accepted specs are in range and tcp or udp. |
| `Ports.MergedInRange` | internal/app/config.go:247-251 | The range loop passes after the merge if and only if it passed before. |
| `Ports.AcceptedRoundTrip` | internal/app/app.go:160-166 | The texts of any list of forwards are accepted as that list. |
| `Ports.Config.Validate` | internal/app/config.go:229-253 | No problem if and only if the mode, memory, processors, bind address and all ports are permitted; a port problem names the first port out of range. |
| `Ports.Config.PortForwards` | internal/app/app.go:231-248 | The configured forwards in order, tcp unless they say otherwise, on the bind address or 127.0.0.1; then ssh to port 22 when enabled. |
| `Ports.Forwarded` | internal/app/app.go:236-243 | Forward by forward: protocol or tcp, bind address, host port, guest port. |
| `Ports.ForwardsAre` | internal/app/app.go:231-248 | Forward by forward: protocol or tcp, bind address, host port, guest port; ssh last, to port 22. |
| `Ports.Config.ReadinessGuestPorts` | internal/app/app.go:572-592 | Length and order are kept; each port becomes the guest port of the last forward for it, ssh included, or stays. |
| `Ports.ProbeMeaning` | internal/app/app.go:572-592 | A probed port becomes the guest port of the last configured port on it, or stays. |
| `Ports.SshProbe` | internal/app/app.go:579-581 | The ssh port becomes 22, whatever else is on it. |
| `Ports.GuestPortAnyBind` | internal/app/app.go:572-592 | That translation does not depend on the bind address. |
| `Ports.NicArgs` | internal/qemu/network.go:42-57 | The loop builds the one argument pair. |
| `Ports.DecimalRoundTrip` | internal/qemu/network.go:54 | A number written in decimal is read back, negative ones included. |
| `Ports.NicRoundTrip` | internal/qemu/network.go:42-57 | The argument is taken apart into exactly the forwards it was made from, in order. |
| `Ports.ForwardsReachQemu` | internal/app/app.go:231-248 | For each permitted bind address QEMU reads the configured ports in order, then ssh. |
| `Ports.FlagsReachQemu` | internal/app/app.go:160-166 | From flag texts through merge and forwards to QEMU: the flags' forwards arrive behind the configured ones and before ssh, in order. |

## Left out

- VmState.StateDir.AcquireLock: the contract is about one launcher while the others stand still; all interleavings are covered by the step system of `LockProtocol`, of which the call is a run.
- Supervision.Launcher.WritePid: what a torn pid file reads as (no pid, or a wrong one) is not modelled; only `status` reads it.
- Disk.TornBlocks: a torn overlay is one QEMU cannot open; a partial file that happens to be openable is not modelled.
- LockProtocol.CarefulRunsAreExclusive: its hypothesis is sufficient; the exact one is in `LockProtocol.RunSafeIff`.
- Supervision.Launcher.StartWithAccelFallback: a QEMU that cannot open its disk is taken to exit within the grace period, and the argument builder's verdict is one fact, as its errors do not depend on the accelerator.
- Supervision.Launcher.Shutdown: no time bound, since `Powerdown` reads without a deadline; a killed process is taken to exit.
- Install.Sessions: one runner at a time; two at once share the stage directory and are not claimed safe.
- BlobStore.Cache.PutStream: undisturbed by other processes; the concurrent case is the step system of which the call is a run (`BlobStore.StoreStaysIntact`, `BlobStore.SuccessStaysBound`).
- Disk.BaseNeverChanges: like `Disk.GuestSeesOneDisk` it takes the images pulled in the history to be free of hash collisions among themselves; no other result needs that.
- Disk.GuestSeesOneDisk: base images come from OCI references; a local image edited by the user between starts, and a `clean` while the machine runs, are outside the history; pulls may come at any time.
- Install.RemoveAll: removes leaves first, one at a time; `MkdirAll` is one micro-step.
- Install.Installer.WriteMarker: the marker's text (the checksum) is not modelled, only that it is there; an empty marker from a failing write counts as a marker, as it does in the source.
- Archive.ExtractMeaning: symbolic links and other special entries are skipped as in the source; the umask, links already inside the destination, and permissions as an obstacle (writing again to a file made read-only) are not modelled.
- PathCleaning.CheckIsExact: slash-separated names only; Windows volume names and separators are not modelled.
- LockProtocol.LoneContenderAcquiresIff: a process that exists but may not be signalled, and a pid that was only partly written, are not modelled.
- Qmp.Client.Execute: JSON framing and arguments are not modelled; a decoding error is a broken connection. `QueryStatus` only decodes a result.
- Pull.Fetch: the registry client, authentication, JSON decoding and reference parsing are arbitrary answers or failures.
- Ports.ForwardsReachQemu: `ports` entries with protocol empty, tcp or udp, and a valid ssh port: `Validate` checks neither the protocol of a configuration entry nor the ssh port.
- Ports.Config.Validate: integers are unbounded; a numeral beyond 64 bits is rejected either way.
- LeaseFile.MacEqual: text is a sequence of characters; non-ASCII bytes and Unicode case folding are not modelled.
- Virtualization.framework, TCP proxying, the serial console, terminal mode, readiness probing, the seed image, service lines, logging and version output: foreign calls, user interface and formatting.
- `internal/qemu/command.go`: literal argument assembly.
- `CheckPortsFree`, seed building, component resolution, accelerator probes and process liveness are answers from outside; a live process is always reported alive, and a dead one's pid may be reused.
- File system durability (power loss, caching, case-insensitive names) and clocks: time passes nondeterministically.
- `--no-accel-fallback`, which cuts the candidate list to its first element.
