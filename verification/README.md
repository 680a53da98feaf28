# Verified model of the Ubuntu VM template builder

The builder takes an Ubuntu server image and a user's autoinstall data, prepares an unattended
installer image, runs the installation on QEMU, vCenter or Proxmox, follows its console, and leaves a
VM or a template. This project models the parts of it whose correctness is not visible from one
function, and proves what they promise. `dafny verify dfyconfig.toml` checks all of it.

| file | part |
|---|---|
| QemuLog, EscapeGrammar | the console compactor: a byte machine over arbitrary writes, its batch form, and a grammar of terminal output |
| DatastoreConsole | the vCenter console streamer: HTTP range polling feeding the compactor |
| FailureDetector | the installer failure detector with its bounded memory |
| ProxmoxBuild, ProxmoxSafety | the Proxmox build protocol over a failing API with cancellation and cleanup, and what its calls rest on |
| StoragePreflight | disk sizes, GiB rounding and the storage preflight in 64-bit arithmetic |
| WorkerPool | the end-to-end matrix runner as a concurrent state machine |
| KernelArgs, BootConfig | patching GRUB and Syslinux files, and the guest's filter that takes the arguments out again |
| UserData, UefiStorage | the autoinstall rewrite, the validators, and the EFI partition check |
| PackageURIs, AptIndex, ShellWords | the offline APT repository: package list, index trimming, shell quoting |
| Text, Decimal, Lists | string, number and list operations that the parts above share |

## How the parts fit together

*Console.* `CompactingWriter` is proved to refine a one-byte step function; chunk invariance and the
batch form follow from it, and `StreamConsole` composes them with the range tailer: for every run of
polls over an append-only log, what reaches the sink is the batch compaction of the log's first
`offset` bytes. Servers follow RFC 9110, sections 14.2, 14.4, 15.3.7 and 15.5.17; any request may also
fail, a part may be shorter than asked for, and the three requests of a poll may each see a longer log.
One hypothesis goes beyond the standard and is named `StartsWhereAsked`: a part begins at the position
asked for. The standard lets a server send another part of the range, and the tailer does not look.

*Proxmox.* The API is a script of answers. Every call records an event, and may only be made when the
protocol allows it (`MayFollow`); `Run` therefore proves the protocol for every script, that is, for
every failing call and every moment of cancellation. It also says when a build succeeds: each failure has a
failed call, an incomplete configuration, or a cancelled wait as its cause. `ProxmoxSafety` turns the protocol's conditions,
which speak of a world, into statements about earlier finished calls in the same trace.

*Worker pool.* Goroutines and channels are one transition system whose steps interleave freely; all
statements are about all reachable states or all finished runs, under cancellation at any point.

## Where the code does not meet the obvious expectation

Each of these has a concrete input on which the code fails and the exact condition under which it is
right.

- A HEAD answer that brings no size is followed by a range probe only if it does not read like a missing
  file, and errors are classified by their text, which includes the path. From a server without HEAD
  support the console of a VM named `vm-404` is never streamed, and no warning is given
  (`FallbackIffPathIsPlain`, `StalledPath`).
- Storage requirements are summed in wrapping 64-bit arithmetic. An accepted storage fits what the
  build puts on it exactly when that total is at most 2^63 - 1; beyond it a full storage is accepted
  (`AcceptedMeansFits`, `WrappedRequirementAcceptsFullStorage`).
- Kernel arguments are looked for by substring. An argument becomes a word of a line exactly when it
  was one, or its text occurred nowhere in an incomplete line; a line with `noautoinstall` never gets
  `autoinstall` (`WordIffNotShadowed`, `ShadowedAutoinstall`).
- The EFI partition check keeps only the last partition per id and the last FAT format per volume, and
  refuses a configuration whose earlier format is the mounted one (`CheckIsExact`,
  `OverriddenFormatIsMissed`).
- A trimmed package index reads back as written exactly when no paragraph has a carriage return before
  a line end or at its end; a list with a line ending in CR CR LF gives such a paragraph
  (`ReadsBackExactly`, `TrimRepository`, `StrayCarriageReturn`).
- A 206 response is appended without comparing the first position in its Content-Range with the one
  asked for. What is delivered stays the log's beginning, whatever the log, exactly when the two are
  equal; an honest server that answers a request for both bytes of "ab" with the second one loses the
  first (`PartMustStartAtOffset`, `SkippedFirstByte`).

## Model

| member | source | states |
|---|---|---|
| QemuLog.SkipCSI | internal/qemulog/qemulog.go:139-147 | stops just behind the first final byte, or at the end of the line |
| QemuLog.SkipOSC | internal/qemulog/qemulog.go:149-160 | stops just behind the first BEL or ESC backslash, or at the end of the line |
| QemuLog.SkipEscape | internal/qemulog/qemulog.go:119-137 | always moves forward, stays in the line, and lands at the end of the escape sequence |
| QemuLog.SanitizeLine | internal/qemulog/qemulog.go:102-117 | equals the recursive definition that the grammar lemmas characterise |
| QemuLog.HasVisibleContent | internal/qemulog/qemulog.go:90-100 | true exactly when some byte is above space and not DEL |
| QemuLog.CompactingWriter.Write | internal/qemulog/qemulog.go:23-51 | new state and output are those of feeding the bytes one by one; the count is the length |
| QemuLog.CompactingWriter.Flush | internal/qemulog/qemulog.go:53-61 | emits a pending line and nothing otherwise |
| QemuLog.CompactingWriter.EmitBufferedLine | internal/qemulog/qemulog.go:63-67 | empties the buffer and emits what it held |
| QemuLog.CompactingWriter.EmitLine | internal/qemulog/qemulog.go:69-88 | shows a visible line, or one newline for a run of blank ones |
| QemuLog.ChunkInvariance | internal/qemulog/qemulog.go:23-51 | any cut of a stream into writes gives the state and output of one write, from any state |
| QemuLog.FeedIsBatch | internal/qemulog/qemulog.go:23-88 | after any text the fields and output are those of its lines split on CR, LF or CRLF |
| QemuLog.WriterRefinesCompact | internal/qemulog/qemulog.go:23-61 | any writes followed by a flush produce the batch compaction of the whole text |
| QemuLog.CompactIsNormal | internal/qemulog/qemulog.go:69-117 | output lines are printable, never two blank ones in a row, without ESC or CR |
| QemuLog.InvisibleIsBlank | internal/qemulog/qemulog.go:90-117 | on a sanitized line everything but tabs and spaces is visible content |
| QemuLog.CompactIdempotent | internal/qemulog/qemulog.go:69-117 | compacting a compacted text changes nothing |
| EscapeGrammar.EveryLineParses | internal/qemulog/qemulog.go:102-160 | every line is a sequence of terminal items with at most one unfinished escape at its end |
| EscapeGrammar.SameDesignators | internal/qemulog/qemulog.go:119-137 | the bytes that take one more byte with them are those of a character set designation |
| EscapeGrammar.SanitizedKeepsPrintable | internal/qemulog/qemulog.go:102-160 | from any position, however the rest decomposes, exactly the printable items survive |
| EscapeGrammar.SanitizedByGrammar | internal/qemulog/qemulog.go:102-160 | the sanitizer is determined by the grammar alone, for every line |
| DatastoreConsole.ConsoleStreamer.Poll | internal/backend/vcenter/console.go:155-174 | moves compactor, offset and count by the bytes read; a failing poll changes none of them; a missing log is no error |
| DatastoreConsole.ConsoleStreamer.PollAndWarn | internal/backend/vcenter/console.go:125-143 | shows each new failure, not cancellations, and never the same warning twice in a row |
| DatastoreConsole.ConsoleStreamer.Finish | internal/backend/vcenter/console.go:145-153 | polls once more, flushes, and adds the warning exactly when no byte was read |
| DatastoreConsole.StreamConsole | internal/backend/vcenter/console.go:111-189 | end to end, for parts that start where asked: the sink has the batch compaction of the log's first offset bytes, or only the warning; if the last poll reads whole, offset covers the log as that poll found it |
| DatastoreConsole.RunFollows | internal/backend/vcenter/console.go:111-174 | after any run of polls whose parts start where asked, the bytes delivered are the log's first offset bytes |
| DatastoreConsole.PollFollows | internal/backend/vcenter/console.go:155-189 | a poll keeps this, also while the log grows between its requests, and never lowers the offset |
| DatastoreConsole.TailIsNextBytes | internal/backend/vcenter/console.go:176-189 | a successful tail returns exactly the bytes between the old and the new offset |
| DatastoreConsole.TailCatchesUp | internal/backend/vcenter/console.go:176-286 | if the one read that a poll makes arrives whole, the poll reaches at least the length seen when the size was asked |
| DatastoreConsole.RunCatchesUp | internal/backend/vcenter/console.go:111-189 | the same for whole runs: a last poll that reads whole has caught up, whatever failed before |
| DatastoreConsole.TruncatedRestarts | internal/backend/vcenter/console.go:176-189 | a successful poll of a log shorter than the offset reads it again from its first byte; a failing one changes nothing |
| DatastoreConsole.SizeIsExact | internal/backend/vcenter/console.go:191-221 | the size used is the log's length at one of the requests |
| DatastoreConsole.ProbeIsExact | internal/backend/vcenter/console.go:223-251 | a range probe succeeds exactly on a part that names the total, a full answer with a length, or 416, and then with the length of the file |
| DatastoreConsole.LengthIsExact | internal/backend/vcenter/console.go:324-337 | the length of the file, exactly when the response gives it |
| DatastoreConsole.TotalOfRange | internal/backend/vcenter/console.go:339-354 | the total printed into any Content-Range is parsed back |
| DatastoreConsole.PartMustStartAtOffset | internal/backend/vcenter/console.go:253-286 | for given positions, what is delivered stays the log's beginning on every log and server exactly when the part starts at the offset asked for |
| DatastoreConsole.SkippedFirstByte | internal/backend/vcenter/console.go:253-286 | a concrete honest answer after which a byte of the log is never delivered |
| DatastoreConsole.NamedStart | internal/backend/vcenter/console.go:253-268 | the Content-Range of a part names its first position and no other, so the missing comparison could be made |
| DatastoreConsole.UnsupportedHeadText | internal/backend/vcenter/console.go:202-221 | the error for a failing HEAD reads as missing exactly when the path or the status text does |
| DatastoreConsole.FallbackIffPathIsPlain | internal/backend/vcenter/console.go:191-221 | for every HEAD answer without a size: the range probe is made exactly when the answer does not read like a missing file; otherwise no poll changes anything |
| DatastoreConsole.StalledPath | internal/backend/vcenter/console.go:313-322 | a concrete path whose console is never streamed |
| DatastoreConsole.FileSizeIsExact | internal/backend/vcenter/console.go:191-251 | the size is learnt exactly when HEAD gives it, or does not read like a missing file and the probe gives it |
| DatastoreConsole.HeadlessServer | internal/backend/vcenter/console.go:202-251 | a server that answers HEAD with 405 or 501 and the probe with 206, 200 or 416 is followed like any other |
| DatastoreConsole.ReadsWholeIff | internal/backend/vcenter/console.go:176-286 | whether a poll catches up can be told from the replies alone |
| DatastoreConsole.ReadSucceedsIff | internal/backend/vcenter/console.go:253-286 | the answers on which a read succeeds |
| DatastoreConsole.MissingIsSilent | internal/backend/vcenter/console.go:125-143 | a log that is not there yet is awaited without a warning |
| DatastoreConsole.RefusalIsReported | internal/backend/vcenter/console.go:125-143 | a refusal is shown once, with path and status |
| DatastoreConsole.UnknownLengthIsReported | internal/backend/vcenter/console.go:223-236 | a probe that does not say how long the log is, is shown as a warning |
| DatastoreConsole.OrdinaryServer | internal/backend/vcenter/console.go:176-286 | a server that answers HEAD and ranges in the usual way meets every assumption, and every poll of it reads whole |
| DatastoreConsole.MissingPhrases | internal/backend/vcenter/console.go:313-322 | the three phrases count anywhere in a text and in any case |
| FailureDetector.InstallerFailureDetector.Write | internal/backend/qemu/qemu.go:482-501 | new tail and marker are those of one detection step |
| FailureDetector.InstallerFailureDetector.Err | internal/backend/qemu/qemu.go:503-511 | an error exactly when a marker was recorded |
| FailureDetector.TailSuffices | internal/backend/qemu/qemu.go:482-501 | a marker new with a write lies within the remembered tail and the write |
| FailureDetector.DetectionIsExact | internal/backend/qemu/qemu.go:476-501 | for any window and markers of at most one more character, bounded search equals unbounded search |
| FailureDetector.InstallerDetectionIsExact | internal/backend/qemu/qemu.go:470-501 | the installer's own markers and 4096-byte window are such a case |
| FailureDetector.BoundedMemory | internal/backend/qemu/qemu.go:482-501 | never more than 4096 characters are remembered |
| FailureDetector.ShorterWindowMisses | internal/backend/qemu/qemu.go:482-501 | the bound is sharp: with a shorter window a marker in two writes is missed |
| FailureDetector.RunVerdict | internal/backend/qemu/qemu.go:598-617 | a run succeeds exactly when process and flushes do and its whole output has no marker; earlier errors win, and the detector names a marker that the output contains |
| StoragePreflight.ParseDiskSizeExact | internal/common/common.go:616-654 | a size is number times unit, refused exactly for unknown units and products beyond int64 |
| StoragePreflight.OnlySizesParse | internal/common/common.go:616-654 | nothing but a number with a unit is accepted |
| StoragePreflight.AllocationIsLeast | internal/backend/proxmox/proxmox.go:702-729 | the least sufficient number of GiB, with the exact failure cases of both functions |
| StoragePreflight.Preflight.AddStorageRequirement | internal/backend/proxmox/proxmox.go:347-356 | adds role, content type and wrapped bytes to one storage and leaves the others alone |
| StoragePreflight.PreflightBuildStorages | internal/backend/proxmox/proxmox.go:303-345 | succeeds exactly when the size is valid and every storage's status meets its requirement, in any order |
| StoragePreflight.CheckStorages | internal/backend/proxmox/proxmox.go:303-381 | the loop agrees with the quantified statement over all storages |
| StoragePreflight.AcceptedIff | internal/backend/proxmox/proxmox.go:358-381 | a storage is accepted exactly when neither flag switches it off, it lists content, allows all that is asked for, and reports enough space |
| StoragePreflight.FalseIff | internal/backend/proxmox/client.go:579-592 | the flags that switch off: false, 0, "0", and "false" in any case |
| StoragePreflight.ListAllows | internal/backend/proxmox/client.go:594-601 | a list written with commas allows exactly its trimmed parts |
| StoragePreflight.CollectedTotal | internal/backend/proxmox/proxmox.go:347-356 | a requirement is the wrapped total of all demands on its storage |
| StoragePreflight.CollectedContent | internal/backend/proxmox/proxmox.go:347-356 | its content types are exactly those of the demands on the storage |
| StoragePreflight.RequirementIsWrappedTotal | internal/backend/proxmox/proxmox.go:303-356 | wrapping intermediate sums early makes no difference |
| StoragePreflight.TotalOfStorage | internal/backend/proxmox/proxmox.go:303-392 | the bytes a build puts on a storage: image, allocation, EFI disk and Cloud-Init drive |
| StoragePreflight.AcceptedMeansFits | internal/backend/proxmox/proxmox.go:303-381 | an accepted storage fits the true total when that fits int64, and for an int64 capacity only then |
| StoragePreflight.AcceptedMeansAllowed | internal/backend/proxmox/proxmox.go:358-381 | an accepted storage allows every content type put on it, shared storage included |
| StoragePreflight.UsualSizesFit | internal/backend/proxmox/proxmox.go:303-392 | disks up to 2^62 and images up to 2^61 bytes never reach the limit |
| StoragePreflight.WrappedRequirementAcceptsFullStorage | internal/backend/proxmox/proxmox.go:347-381 | past the limit a storage without free space is accepted |
| ProxmoxBuild.Run | internal/backend/proxmox/proxmox.go:153-253 | for every script of answers: legal calls with those answers; success exactly when the configuration is complete and every answer can be gone on from, unless a cancelled wait ended it, so a long enough good script succeeds; the finished world and no cleanup on success; no image left when no machine was asked for; nothing left after a fully successful cleanup |
| ProxmoxBuild.FieldsValidIff | internal/backend/proxmox/proxmox.go:255-278 | the required fields are valid exactly when each has some text and the id is not negative |
| ProxmoxBuild.TakenIff | internal/backend/proxmox/proxmox.go:280-294 | a target is taken by a machine with the requested id, or with the same name but for case and surrounding space |
| ProxmoxBuild.BuildableMeans | internal/backend/proxmox/proxmox.go:165-220 | the complete configurations are those that pass the size, hardware, bridge, Cloud-Init and option checks of all steps |
| ProxmoxBuild.GoodAnswersGoOn | internal/backend/proxmox/proxmox.go:153-253 | good answers make events that the build goes on from, without cancellation |
| ProxmoxBuild.BuildState.Install | internal/backend/proxmox/proxmox.go:165-196 | nil exactly when completed, with the finished world; a failure has a failed call, an incomplete configuration, or a cancelled wait as its cause; without the fields nothing is called |
| ProxmoxBuild.BuildState.InstallUploaded | internal/backend/proxmox/proxmox.go:198-220 | with an uploaded image: the same; the record of resources stays exact on every path, and the image is deleted when no machine was asked for |
| ProxmoxBuild.BuildState.InstallCreated | internal/backend/proxmox/proxmox.go:222-253 | with a created machine: the same, through all remaining steps |
| ProxmoxBuild.BuildState.CheckTarget | internal/backend/proxmox/proxmox.go:169-180 | passes exactly when the node is known, name and id are free, and the image was made |
| ProxmoxBuild.BuildState.WaitForInstaller | internal/backend/proxmox/proxmox.go:555-569 | ends with a stopped machine, a failed reading, or a cancellation, after which nothing is asked |
| ProxmoxBuild.BuildState.PreflightStorages | internal/backend/proxmox/proxmox.go:303-345 | passes exactly when the size is valid and both storages were asked for and accepted |
| ProxmoxBuild.BuildState.UploadTemporaryInstallerISO | internal/backend/proxmox/proxmox.go:394-414 | uploads only after the name was seen absent, and records exactly the uploaded volume |
| ProxmoxBuild.BuildState.SelectVMID | internal/backend/proxmox/proxmox.go:416-430 | the requested id, or else a positive one that the API offered |
| ProxmoxBuild.BuildState.CreateAndWait | internal/backend/proxmox/proxmox.go:211-220 | the machine is recorded exactly when its create task succeeded |
| ProxmoxBuild.BuildState.PowerOnAndWait | internal/backend/proxmox/proxmox.go:531-570 | success means started by a finished task and then seen stopped, with its configuration untouched |
| ProxmoxBuild.BuildState.Finalize | internal/backend/proxmox/proxmox.go:602-617 | success means that the finalizing change, and no other, has finished on the stopped machine |
| ProxmoxBuild.BuildState.ApplyCloudInitOptions | internal/backend/proxmox/proxmox.go:619-640 | needs the finished finalizing change, and adds the finished Cloud-Init change exactly when enabled |
| ProxmoxBuild.BuildState.ApplyVMOptions | internal/backend/proxmox/proxmox.go:642-663 | needs those, and ends with every change that was asked for finished, in order |
| ProxmoxBuild.BuildState.MaybeConvertToTemplate | internal/backend/proxmox/proxmox.go:665-679 | converts the finished machine exactly when a template was asked for |
| ProxmoxBuild.BuildState.DeleteTemporaryISO | internal/backend/proxmox/proxmox.go:681-700 | success leaves no image, with no second deletion of one already deleted; failure leaves the record as it was |
| ProxmoxBuild.BuildState.CleanupInterruptedBuild | internal/backend/proxmox/proxmox.go:731-748 | if all its tasks succeed neither image nor machine is left |
| ProxmoxBuild.BuildState.DestroyInterruptedVM | internal/backend/proxmox/proxmox.go:750-775 | success means the machine is gone; failure means a task of it failed and the machine is still recorded |
| ProxmoxBuild.Client.Perform | internal/backend/proxmox/client.go:327-350 | a task takes effect exactly when it was accepted and its wait succeeded |
| ProxmoxSafety.OnlyOwnMachines | internal/backend/proxmox/proxmox.go:211-253 | start, change, conversion, stop and deletion only of a machine whose create task this run saw succeed |
| ProxmoxSafety.ChangedOnlyWhenStopped | internal/backend/proxmox/proxmox.go:222-238 | configuration is touched only after a finished start and, later than that, an observed stop |
| ProxmoxSafety.FinalizedFirst | internal/backend/proxmox/proxmox.go:602-679 | Cloud-Init starts only when the installer's drive and console are gone; options after a finished Cloud-Init; conversion after the finished finalizing, Cloud-Init and options tasks that were asked for |
| ProxmoxSafety.OnlyOwnImage | internal/backend/proxmox/proxmox.go:681-700 | only the volume uploaded by this run is deleted, and never after a deletion that succeeded |
| ProxmoxSafety.UploadMeansSpace | internal/backend/proxmox/proxmox.go:181-196 | the upload follows an absent name and storages that fit their true total, as far as it fits int64 |
| ProxmoxSafety.UploadMeansUsable | internal/backend/proxmox/proxmox.go:181-196 | and storages that are switched on and allow what is put on them |
| ProxmoxSafety.CreatedWhereFree | internal/backend/proxmox/proxmox.go:169-213 | a machine is created under the requested or an offered id, on a known node, where id and name were seen free |
| ProxmoxSafety.CreatedForInstaller | internal/backend/proxmox/proxmox.go:432-478 | its configuration boots the image that this run uploaded before the disk, with the console on the serial port |
| ProxmoxSafety.DeletedWhenDown | internal/backend/proxmox/proxmox.go:750-775 | a machine last seen running is stopped before it is deleted |
| ProxmoxSafety.FinishedConfig | internal/backend/proxmox/proxmox.go:432-503 | the whole configuration of a finished machine: what was asked for, the disk alone in the boot order, no serial console, the Cloud-Init drive or none |
| ProxmoxSafety.LegalMachines | internal/backend/proxmox/proxmox.go:153-253 | invariant: every machine of the world has its creation, start, stop and every finished change in the trace |
| ProxmoxSafety.LegalImages | internal/backend/proxmox/proxmox.go:153-253 | invariant: at most one image was ever uploaded, and uploaded plus deleted never exceed one |
| WorkerPool.ExpandCases | cmd/e2e-matrix/main.go:466-481 | the numbered product of versions, formats and modes, in order |
| WorkerPool.ProductAt | cmd/e2e-matrix/main.go:466-481 | every combination is a case, at its own place, and there are no others |
| WorkerPool.Reachable | cmd/e2e-matrix/main.go:723-764 | the control and case invariants hold in every reachable state |
| WorkerPool.Conservation | cmd/e2e-matrix/main.go:723-764 | undispatched, held and collected cases partition the input; the workers are as many as configured, but no more than cases, and hold one case each at most |
| WorkerPool.NoSendAfterClose | cmd/e2e-matrix/main.go:723-764 | no channel is sent on or closed after it was closed |
| WorkerPool.EveryStepLowers | cmd/e2e-matrix/main.go:723-764 | every step, cancellation included, lowers the measure |
| WorkerPool.RunsAreBounded | cmd/e2e-matrix/main.go:723-764 | so no run is longer than the measure of its start |
| WorkerPool.NeverStuck | cmd/e2e-matrix/main.go:723-764 | a reachable state that is not final can advance, given a worker or an empty input |
| WorkerPool.ReachesFinal | cmd/e2e-matrix/main.go:723-764 | every reachable state extends to a final one, without further cancellation, and from a cancelled one without running any further case |
| WorkerPool.AnyPrefixIsPossible | cmd/e2e-matrix/main.go:723-764 | a cancellation can end a run after any number of cases |
| WorkerPool.AllWorkersBusy | cmd/e2e-matrix/main.go:723-764 | all workers can be running a case at the same time |
| WorkerPool.StuckWithoutWorkers | cmd/e2e-matrix/main.go:723-764 | without a worker the start can advance exactly when there is no case |
| WorkerPool.ValidatedNeverStuck | cmd/e2e-matrix/main.go:339-344 | a concurrency that passed validation never gets stuck |
| WorkerPool.ReturnedResults | cmd/e2e-matrix/main.go:723-764 | the sorted result has exactly the cases of a prefix, in order, and all of them when not cancelled |
| KernelArgs.EnsureAutoinstallArgs | internal/seediso/seediso.go:410-423 | equals the specification that the lemmas below are about |
| KernelArgs.EnsuredIsComplete | internal/seediso/seediso.go:410-423 | the result contains all three arguments, and completing it again changes nothing |
| KernelArgs.InsertionsAreTogether | internal/seediso/seediso.go:410-430 | exactly the missing arguments, each once and in order, go together in front of the first separator or at the end; the rest is kept |
| KernelArgs.SeparatorAfterInsert | internal/seediso/seediso.go:425-430 | the first separator keeps its place behind an insertion |
| KernelArgs.WordIffNotShadowed | internal/seediso/seediso.go:410-423 | exactly when an argument is a word of the completed line |
| KernelArgs.ShadowedAutoinstall | internal/seediso/seediso.go:410-423 | a line that never gets the argument autoinstall |
| KernelArgs.PatchedExample | internal/seediso/seediso.go:410-430 | the installer's own line, before and after |
| KernelArgs.CleanCommandLine | internal/seediso/scripts/cleanup-installed-grub.sh:22-34 | the loop joins exactly the words that are not builder arguments |
| KernelArgs.CleanUndoesEnsure | internal/seediso/scripts/cleanup-installed-grub.sh:22-34 | cleaning a completed line gives what cleaning the line itself gives, for both spellings |
| KernelArgs.CleanedWords | internal/seediso/scripts/cleanup-installed-grub.sh:22-34 | the result has exactly the other words in order, and cleaning is idempotent |
| KernelArgs.DroppedIffInserted | internal/seediso/scripts/cleanup-installed-grub.sh:22-34 | the guest drops exactly the arguments that the installer inserts |
| BootConfig.AddKernelArgs | internal/seediso/seediso.go:284-399 | the patched text, with the changed flag true exactly when some line differs |
| BootConfig.PatchedIsSettled | internal/seediso/seediso.go:284-423 | a patched line keeps its kind and is a fixed point |
| BootConfig.BootKept | internal/seediso/seediso.go:401-430 | inserting an argument never turns a boot line into another kind of line |
| BootConfig.BootLineIff | internal/seediso/seediso.go:401-408 | the lines that boot the installer, by first word or kernel path, in any case |
| BootConfig.GrubDirective | internal/seediso/seediso.go:293-313 | a GRUB timeout directive with any value and indent gets its fixed value |
| BootConfig.SyslinuxDirective | internal/seediso/seediso.go:353-372 | the same for Syslinux, in any case |
| BootConfig.PatchIdempotent | internal/seediso/seediso.go:284-399 | a second pass returns the same text and reports no change |
| BootConfig.LinesOfPatch | internal/seediso/seediso.go:284-399 | the patched file has exactly the patched lines and the old trailing newline |
| BootConfig.PatchIsCompleteAndConservative | internal/seediso/seediso.go:284-399 | missing directives first, then every source line in order: fixed, completed or unchanged by its kind |
| BootConfig.BootLineKeepsItsText | internal/seediso/seediso.go:410-430 | everything on a boot line is kept, around one block of exactly the arguments it lacked, or none if it was complete |
| BootConfig.EmptyFile | internal/seediso/seediso.go:284-399 | an empty file becomes its two directives |
| UserData.MappingValue | internal/common/common.go:574-584 | the value of the first entry with the key, and nothing for other nodes |
| UserData.MappingNode.SetMappingScalar | internal/common/common.go:586-602 | the node's content is updated as the next two lemmas describe |
| UserData.MappingNode.PrependInstallLateCommands | internal/offlineapt/offlineapt.go:404-428 | edits the node as specified, or reports the error and leaves it alone |
| UserData.MappingNode.AppendBuilderSupportLateCommands | internal/seediso/seediso.go:184-204 | edits the node as specified, or reports the error and leaves it alone |
| UserData.TransformUserData | internal/seediso/seediso.go:152-182 | the step-by-step rewrite agrees with the transformation that the lemmas below are about, errors included |
| UserData.LookupWith | internal/common/common.go:574-602 | after a change the key has the new value and every other key its old one |
| UserData.WithKeepsPlaces | internal/common/common.go:586-602 | exactly the value of the first entry with the key changes; every other position, repeated keys included, keeps its content |
| UserData.RewriteFailsExactly | internal/seediso/seediso.go:152-204 | the rewrite fails exactly for an invalid package configuration or late commands that are no list |
| UserData.RewrittenKeys | internal/seediso/seediso.go:152-204 | power-off, late commands as installation, user's, builder's, and every other key unchanged |
| UserData.RewrittenPlaces | internal/seediso/seediso.go:152-204 | every position keeps its content but for the first values of the two rewritten keys; new entries come last |
| UserData.TransformedRoot | internal/seediso/seediso.go:152-182 | only the autoinstall mapping of the document changes |
| UserData.BuilderAddsNoFallback | internal/common/common.go:462-501 | the builder's commands are never taken for a fallback boot loader installation |
| UserData.TransformKeepsVerdicts | internal/common/common.go:384-432 | UEFI verdict and host name are the same before and after, errors included |
| UserData.PortableIff | internal/common/common.go:402-551 | user data is portable exactly with an autoinstall mapping, a fallback command, and no storage by hand or an effective EFI partition chain |
| UserData.HostnameIs | internal/common/common.go:384-400 | the trimmed scalar at identity.hostname, or "", for every autoinstall mapping |
| UserData.FallbackIff | internal/common/common.go:494-501 | grub-install with --removable, or the fallback path with slashes of either kind, in any case |
| UserData.ListedCommand | internal/common/common.go:475-492 | a command given as a list of words reads like the words on one line |
| UserData.ActionRoundTrip | internal/common/common.go:503-551 | a storage action written as a mapping is read back field by field |
| UserData.InstallCommandWords | internal/offlineapt/offlineapt.go:430-442 | a shell reads the install command as exactly its five words |
| UserData.BuilderPaths | internal/seediso/seediso.go:206-223 | the scripts and directories that the builder's commands name |
| UefiStorage.StorageHasESP | internal/common/common.go:503-551 | the two loops compute the four-map join |
| UefiStorage.CheckIsExact | internal/common/common.go:503-551 | yes exactly when a chain of actions is not overridden by a later partition or format |
| UefiStorage.CheckIsSoundAndComplete | internal/common/common.go:503-551 | yes always means a real chain; without reused ids or double formats every chain is found |
| UefiStorage.OverriddenFormatIsMissed | internal/common/common.go:503-551 | a real chain that the check refuses |
| UefiStorage.OrderIndependent | internal/common/common.go:503-551 | without reused ids or double formats the order of the actions makes no difference |
| PackageURIs.ParsePackageURIs | internal/offlineapt/offlineapt.go:561-593 | fails exactly for an unreadable package line; one package for each path, from its first line |
| PackageURIs.EntryOfLine | internal/offlineapt/offlineapt.go:564-593 | the URI between the quotes, the download name after them, and nothing of the rest |
| PackageURIs.EntryOfBareLine | internal/offlineapt/offlineapt.go:564-593 | a URI without a name is downloaded under the last element of its path |
| PackageURIs.OpenQuote | internal/offlineapt/offlineapt.go:569-572 | a line with an open quote is an error |
| PackageURIs.ReturnedPackages | internal/offlineapt/offlineapt.go:561-598 | after sorting: strictly ascending paths, exactly those that some line gives |
| PackageURIs.OrderDoesNotMatter | internal/offlineapt/offlineapt.go:561-598 | the result depends only on the first line for each path |
| AptIndex.PackageIndexParagraphs | internal/offlineapt/offlineapt.go:733-744 | the trimmed, non-blank parts between blank lines |
| AptIndex.PackageIndexField | internal/offlineapt/offlineapt.go:746-759 | the value of the first line that gives the field |
| AptIndex.GivesFieldIff | internal/offlineapt/offlineapt.go:746-759 | the lines that give a field, as key, colon and value |
| AptIndex.DotSlash | internal/offlineapt/offlineapt.go:761-769 | a path from the current directory is the same path |
| AptIndex.ScanParagraphs | internal/offlineapt/offlineapt.go:695-719 | what was found is exactly the first paragraph of each wanted path |
| AptIndex.SelectedRecords | internal/offlineapt/offlineapt.go:680-731 | succeeds exactly when every path has a first paragraph with an architecture; one record per path |
| AptIndex.WriteTrimmed | internal/offlineapt/offlineapt.go:639-678 | succeeds exactly for the two architectures, and writes each one's records |
| AptIndex.WriteIndex | internal/offlineapt/offlineapt.go:659-676 | the text that the read-back lemmas are about |
| AptIndex.ParagraphsShape | internal/offlineapt/offlineapt.go:733-744 | paragraphs are non-blank, without breaks, without newlines at their ends, and free of carriage returns that were in no CRLF |
| AptIndex.ReadsWritten | internal/offlineapt/offlineapt.go:659-744 | splitting a written index gives back the written paragraphs |
| AptIndex.ReadsBackExactly | internal/offlineapt/offlineapt.go:659-744 | an index reads back exactly when its paragraphs have no stray carriage return |
| AptIndex.StrayCarriageReturn | internal/offlineapt/offlineapt.go:639-744 | a list whose one package is selected, and whose written index does not read back |
| AptIndex.ArchitecturesPartition | internal/offlineapt/offlineapt.go:645-657 | the two indexes divide the records without loss or overlap |
| AptIndex.TrimRepository | internal/offlineapt/offlineapt.go:639-731 | for all lists: exact success condition, first match per path, partition, and read-back exactly when the records have no stray carriage return, as with LF or CRLF lists |
| ShellWords.ShellJoin | internal/offlineapt/offlineapt.go:1001-1014 | the line that the next lemmas read |
| ShellWords.ReadsQuoted | internal/offlineapt/offlineapt.go:1009-1014 | a quoted argument is read as one word with the argument's characters |
| ShellWords.ShellReadsArguments | internal/offlineapt/offlineapt.go:1001-1014 | a POSIX shell splits the joined line into exactly the given arguments |
| ShellWords.JoinIsInjective | internal/offlineapt/offlineapt.go:1001-1014 | different argument lists never give the same line |

## Left out

- HTTP, websocket and vSphere clients, ISO reading, xorriso, apt and QEMU execution: their outcomes are parameters or scripted answers.
- Failing console sinks, flushes between writes, mutexes, and the interleaving of a process's two output streams: the detector sees one order of writes, the compactor an infallible sink.
- Real time: tickers, grace periods and timeouts. A timed-out request is one that fails; a run is any finite list of polls.
- Log replacement between the requests of one poll, multipart 206 answers and dishonest servers.
- DatastoreConsole.StreamConsole: for answers whose part starts elsewhere than asked it promises nothing; by PartMustStartAtOffset no such promise would hold on every log.
- The text of warnings beyond the error's own text, and Go's quoting of unprintable header text inside it.
- Resources after a failure that is no cancellation, or after a failed wait for the creation of a VM: the code keeps them or cannot know them.
- The Proxmox console stream that runs beside the installer, its warnings, and progress messages.
- ProxmoxBuild.Run: hardware, Cloud-Init and option values are given maps that do not touch the drive, boot, console and disk keys, with flags for their validation; the builders of these maps are long case lists.
- ProxmoxBuild.Run: it describes what this run has made, not other users of the same Proxmox node.
- StoragePreflight.PreflightBuildStorages: the sort of the storage names is any order; it decides only which failure is reported.
- WorkerPool.ReturnedResults: running a case has an arbitrary outcome, and the sort is any ascending arrangement.
- PackageURIs.ParsePackageURIs: the URL parsing of packageURIPath and the last element of a path are function parameters, and the sort is any arrangement without descents.
- AptIndex.TrimRepository: the lists come as texts in directory order, path cleaning is a function parameter, and the Release file with its checksums is not part of this model.
- YAML text, anchors, aliases and merge keys.
- UserData.MappingNode.SetMappingScalar: the mapping is edited in place, but the nodes below it are values, so a node that is reachable twice is not captured.
- Unicode: case folding and white space are those of ASCII.
- The rest of the cleanup script: reading and rewriting the file, quote removal, file name patterns in the command line, update-grub.
- ShellWords.ShellReadsArguments: the reader knows words, blanks and quotes; lines with a backslash, an expansion or an operator outside single quotes are outside it.
- Command lines, usage texts, configuration examples, prerequisite reports and hardware enumerations: no property that spans functions.
