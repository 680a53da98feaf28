/** What the legality of a build's calls says about the calls themselves: which earlier, finished
    calls every start, change, conversion and deletion rests on. */
module ProxmoxSafety {
  import opened Text
  import opened Decimal
  import opened StoragePreflight
  import opened ProxmoxBuild

  // ---------------------------------------------------------------- the invariant of legal traces

  predicate SaysStopped(e: Event, vmid: int) {
    e.StatusRead? && e.vmid == vmid && e.ok && e.power == "stopped"
  }

  /** The machine's start finished, and later it was seen stopped. */
  ghost predicate RanAndStopped(trace: seq<Event>, vmid: int) {
    exists i, j :: 0 <= i < j < |trace| && trace[i] == Waited(StartVM(vmid), true) && SaysStopped(trace[j], vmid)
  }

  /** What holds of every machine in the world of a legal trace. */
  ghost predicate MachineInv(b: Build, trace: seq<Event>, vmid: int, vm: VM) {
    && Waited(CreateVM(vmid, vm.created), true) in trace
    && (exists volume :: CreateValues(b, volume) == Some(vm.created))
    && (vm.stage == Running ==> Waited(StartVM(vmid), true) in trace)
    && (vm.stage == Stopped ==> RanAndStopped(trace, vmid))
    && (forall change <- vm.changes :: Waited(UpdateVM(vmid, change), true) in trace)
  }

  lemma StillRanAndStopped(trace: seq<Event>, e: Event, vmid: int)
    requires RanAndStopped(trace, vmid)
    ensures RanAndStopped(trace + [e], vmid)
  {
    var i, j :| 0 <= i < j < |trace| && trace[i] == Waited(StartVM(vmid), true) && SaysStopped(trace[j], vmid);
    assert (trace + [e])[i] == trace[i] && (trace + [e])[j] == trace[j];
  }

  lemma SeenStopped(trace: seq<Event>, e: Event, vmid: int)
    requires Waited(StartVM(vmid), true) in trace && SaysStopped(e, vmid)
    ensures RanAndStopped(trace + [e], vmid)
  {
    var i :| 0 <= i < |trace| && trace[i] == Waited(StartVM(vmid), true);
    assert (trace + [e])[i] == trace[i] && (trace + [e])[|trace|] == e;
  }

  ghost predicate MachinesInv(b: Build, trace: seq<Event>) {
    var w := WorldAfter(b, trace);
    forall v :: v in w.vms ==> MachineInv(b, trace, v, w.vms[v])
  }

  ghost predicate ImagesIn(w: World, trace: seq<Event>) {
    && (forall v :: v in w.volumes ==> Uploaded(v, true) in trace)
    && |w.volumes| + w.deletions <= 1
    && (forall v :: v in w.absent ==> VolumeChecked(v, true, false) in trace)
  }

  /** At most one image is ever uploaded, and the names taken for absent were seen absent. */
  ghost predicate ImagesInv(b: Build, trace: seq<Event>) {
    ImagesIn(WorldAfter(b, trace), trace)
  }

  /** The storage was asked for and passed the preflight. */
  ghost predicate CheckedIn(b: Build, trace: seq<Event>, storage: string) {
    exists status :: StorageChecked(storage, status) in trace && StorageAccepted(b, storage, status)
  }

  lemma LegalPrefix(b: Build, trace: seq<Event>, k: nat)
    requires Legal(b, trace) && k <= |trace|
    ensures Legal(b, trace[..k])
  {
    hide MayFollow;
    forall j | 0 <= j < k
      ensures MayFollow(b, trace[..k][..j], trace[..k][j])
    {
      assert trace[..k][..j] == trace[..j];
    }
  }

  /** A task that finished was allowed in the very world it changes. */
  lemma FinishedWasAllowed(b: Build, init: seq<Event>, op: Op)
    requires Legal(b, init) && MayFollow(b, init, Waited(op, true))
    ensures MayBegin(b, WorldAfter(b, init), op)
  {
    hide MayBegin;
    var n := |init| - 1;
    assert MayFollow(b, init[..n], init[n]);
    assert WorldAfter(b, init) == WorldAfter(b, init[..n]);
  }

  lemma TaskKeepsMachine(b: Build, init: seq<Event>, op: Op, w: World, v: int)
    requires WellFormed(b) && MayBegin(b, w, op) && v in Effect(w, op).vms
    requires forall u :: u in w.vms ==> MachineInv(b, init, u, w.vms[u])
    ensures MachineInv(b, init + [Waited(op, true)], v, Effect(w, op).vms[v])
  {
    hide WellFormed, CreateValues, FinalizeChange, CloudInitChange, OptionsChange, AllSteps, CloudInitSteps,
         RanAndStopped;
    if v in w.vms {
      assert MachineInv(b, init, v, w.vms[v]);
      if w.vms[v].stage == Stopped {
        StillRanAndStopped(init, Waited(op, true), v);
      }
    }
  }

  lemma MachinesStep(b: Build, init: seq<Event>, e: Event)
    requires WellFormed(b) && Legal(b, init) && MayFollow(b, init, e) && MachinesInv(b, init)
    ensures MachinesInv(b, init + [e])
  {
    hide Legal, WorldAfter, WellFormed, MayBegin, CreateValues, RanAndStopped;
    var w := WorldAfter(b, init);
    WorldOfLonger(b, init, e);
    var w' := WorldAfter(b, init + [e]);
    forall v | v in w'.vms
      ensures MachineInv(b, init + [e], v, w'.vms[v])
    {
      if e.Waited? && e.ok {
        FinishedWasAllowed(b, init, e.op);
        TaskKeepsMachine(b, init, e.op, w, v);
      } else if v in w.vms {
        assert MachineInv(b, init, v, w.vms[v]);
        if w.vms[v].stage == Stopped {
          StillRanAndStopped(init, e, v);
        } else if w'.vms[v].stage == Stopped {
          SeenStopped(init, e, v);
        }
      }
    }
  }

  lemma LegalAt(b: Build, trace: seq<Event>, k: nat)
    requires Legal(b, trace) && k < |trace|
    ensures MayFollow(b, trace[..k], trace[k])
  {
  }

  lemma {:induction false} LegalMachines(b: Build, trace: seq<Event>)
    requires WellFormed(b) && Legal(b, trace)
    ensures MachinesInv(b, trace)
  {
    hide Legal, MayFollow, WellFormed, MachineInv;
    if trace != [] {
      var n := |trace| - 1;
      LegalPrefix(b, trace, n);
      LegalMachines(b, trace[..n]);
      LegalAt(b, trace, n);
      MachinesStep(b, trace[..n], trace[n]);
      assert trace == trace[..n] + [trace[n]];
    }
  }

  lemma DeletionRemoves(b: Build, w: World, volume: string)
    requires MayBegin(b, w, DeleteVolume(volume))
    ensures |w.volumes - {volume}| == |w.volumes| - 1
  {
    assert volume in w.volumes;
  }

  lemma TaskKeepsImages(b: Build, w: World, init: seq<Event>, op: Op)
    requires MayBegin(b, w, op) && ImagesIn(w, init)
    ensures ImagesIn(Effect(w, op), init + [Waited(op, true)])
  {
    assert forall x :: x in init ==> x in init + [Waited(op, true)];
    if op.DeleteVolume? {
      DeletionRemoves(b, w, op.volume);
    }
  }

  lemma UploadKeepsImages(b: Build, init: seq<Event>, e: Event)
    requires e.Uploaded? && MayFollow(b, init, e) && ImagesInv(b, init)
    ensures ImagesIn(Apply(b, WorldAfter(b, init), e), init + [e])
  {
    hide WorldAfter, ISOVolume;
    assert forall x :: x in init || x == e ==> x in init + [e];
  }

  lemma OtherKeepsImages(b: Build, w: World, init: seq<Event>, e: Event)
    requires ImagesIn(w, init) && !e.Uploaded? && !(e.Waited? && e.ok)
    ensures ImagesIn(Apply(b, w, e), init + [e])
  {
    hide StorageAccepted;
    assert forall x :: x in init || x == e ==> x in init + [e];
  }

  lemma ImagesStep(b: Build, init: seq<Event>, e: Event)
    requires Legal(b, init) && MayFollow(b, init, e) && ImagesInv(b, init)
    ensures ImagesInv(b, init + [e])
  {
    hide Legal, WorldAfter, MayBegin, StorageAccepted, ISOVolume, ImagesIn, MayFollow;
    WorldOfLonger(b, init, e);
    if e.Waited? && e.ok {
      FinishedWasAllowed(b, init, e.op);
      TaskKeepsImages(b, WorldAfter(b, init), init, e.op);
    } else if e.Uploaded? {
      UploadKeepsImages(b, init, e);
    } else {
      OtherKeepsImages(b, WorldAfter(b, init), init, e);
    }
  }

  lemma {:induction false} LegalImages(b: Build, trace: seq<Event>)
    requires Legal(b, trace)
    ensures ImagesInv(b, trace)
  {
    hide Legal, MayFollow;
    if trace != [] {
      var n := |trace| - 1;
      LegalPrefix(b, trace, n);
      LegalImages(b, trace[..n]);
      LegalAt(b, trace, n);
      ImagesStep(b, trace[..n], trace[n]);
      assert trace == trace[..n] + [trace[n]];
    }
  }

  lemma {:induction false} AcceptedWasChecked(b: Build, trace: seq<Event>, storage: string)
    requires storage in WorldAfter(b, trace).accepted
    ensures CheckedIn(b, trace, storage)
  {
    hide StorageAccepted;
    var init, e := trace[..|trace| - 1], trace[|trace| - 1];
    assert trace == init + [e];
    if storage in WorldAfter(b, init).accepted {
      AcceptedWasChecked(b, init, storage);
      var status :| StorageChecked(storage, status) in init && StorageAccepted(b, storage, status);
      assert StorageChecked(storage, status) in trace;
    } else {
      assert e in trace;
    }
  }

  /** What the world of a legal trace knows, the trace has seen. */
  ghost predicate KnownIn(b: Build, w: World, trace: seq<Event>) {
    && (NodeKnown in w.ready ==> NodeValidated(true) in trace)
    && (TargetFree in w.ready ==> exists vms :: Listed(true, vms) in trace && !TargetTaken(b, vms))
    && (ImageMade in w.ready ==> ISOCreated(true) in trace)
    && (forall id <- w.offered :: IDAllocated(true, id) in trace)
    && (w.volumes != {} ==> w.ready == {NodeKnown, TargetFree, ImageMade})
  }

  lemma KnownStep(b: Build, init: seq<Event>, e: Event)
    requires MayFollow(b, init, e) && KnownIn(b, WorldAfter(b, init), init)
    ensures KnownIn(b, WorldAfter(b, init + [e]), init + [e])
  {
    hide WorldAfter, TargetTaken, StorageAccepted, ISOVolume, MayStart;
    WorldOfLonger(b, init, e);
    assert forall x :: x in init || x == e ==> x in init + [e];
  }

  lemma {:induction false} LegalKnown(b: Build, trace: seq<Event>)
    requires Legal(b, trace)
    ensures KnownIn(b, WorldAfter(b, trace), trace)
  {
    hide Legal, MayFollow, TargetTaken;
    if trace != [] {
      var n := |trace| - 1;
      LegalPrefix(b, trace, n);
      LegalKnown(b, trace[..n]);
      LegalAt(b, trace, n);
      KnownStep(b, trace[..n], trace[n]);
      assert trace == trace[..n] + [trace[n]];
    }
  }

  // ---------------------------------------------------------------- what every legal run keeps

  /** A machine is started, changed, converted, stopped or deleted only after the task that
      created that very machine succeeded in this run. */
  lemma OnlyOwnMachines(b: Build, trace: seq<Event>, k: nat, vmid: int)
    requires WellFormed(b) && Legal(b, trace) && k < |trace| && trace[k].Begun?
    requires match trace[k].op
             case StartVM(v) => v == vmid
             case UpdateVM(v, _) => v == vmid
             case TemplateVM(v) => v == vmid
             case StopVM(v) => v == vmid
             case DeleteVM(v) => v == vmid
             case _ => false
    ensures exists config :: Waited(CreateVM(vmid, config), true) in trace[..k]
  {
    LegalAt(b, trace, k);
    LegalPrefix(b, trace, k);
    LegalMachines(b, trace[..k]);
    var w := WorldAfter(b, trace[..k]);
    assert MachineInv(b, trace[..k], vmid, w.vms[vmid]);
  }

  /** A machine is created under the id that was asked for, or else one that the API offered, on a node
      that was found, where neither that id nor the name was taken. */
  lemma CreatedWhereFree(b: Build, trace: seq<Event>, k: nat)
    requires Legal(b, trace) && k < |trace| && trace[k].Begun? && trace[k].op.CreateVM?
    ensures var vmid := trace[k].op.vmid;
            vmid > 0 && if b.requestedVMID > 0 then vmid == b.requestedVMID else IDAllocated(true, vmid) in trace[..k]
    ensures NodeValidated(true) in trace[..k] && ISOCreated(true) in trace[..k]
    ensures exists vms :: Listed(true, vms) in trace[..k] && !TargetTaken(b, vms)
  {
    hide Legal, WorldAfter, TargetTaken, CreateValues;
    LegalAt(b, trace, k);
    LegalPrefix(b, trace, k);
    LegalKnown(b, trace[..k]);
  }

  function ForInstaller(b: Build, volume: string): Config {
    b.hardware + map[b.diskKey := b.diskSpec] + map["vga" := "serial0", "serial0" := "socket"]
    + map["ide2" := volume + ",media=cdrom", "boot" := "order=ide2;" + b.diskKey]
  }

  lemma FiveKeys<K, V>(own: map<K, V>, drive: K, disk: K, boot: K, console: K, display: K, v1: V, v2: V, v3: V, v4: V,
                       v5: V)
    requires disk != drive && disk != boot && disk != console && disk != display
    requires drive != boot && drive != console && drive != display && boot != console && boot != display
    requires console != display
    ensures own + map[drive := v1, disk := v2, boot := v3, console := v4, display := v5]
         == own + map[disk := v2] + map[display := v5, console := v4] + map[drive := v1, boot := v3]
  {
  }

  lemma CreatedConfig(b: Build, volume: string, created: Config)
    requires WellFormed(b) && CreateValues(b, volume) == Some(created)
    ensures created == ForInstaller(b, volume)
  {
    hide AllocationGiB, TrimSpace;
    assert b.diskKey !in PROTOCOL_KEYS;
    FiveKeys(b.hardware, "ide2", b.diskKey, "boot", "serial0", "vga", volume + ",media=cdrom", b.diskSpec,
             "order=ide2;" + b.diskKey, "socket", "serial0");
  }

  /** The configuration of the installer's machine: the uploaded image in its second IDE drive, which boots
      before the disk, and the console on the serial port. */
  lemma CreatedForInstaller(b: Build, trace: seq<Event>, k: nat)
    requires WellFormed(b) && Legal(b, trace) && k < |trace| && trace[k].Begun? && trace[k].op.CreateVM?
    ensures exists volume :: Uploaded(volume, true) in trace[..k] && trace[k].op.config == ForInstaller(b, volume)
  {
    hide Legal, WorldAfter, CreateValues, ForInstaller, WellFormed;
    LegalAt(b, trace, k);
    LegalPrefix(b, trace, k);
    LegalImages(b, trace[..k]);
    var w := WorldAfter(b, trace[..k]);
    var volume :| volume in w.volumes && CreateValues(b, volume) == Some(trace[k].op.config);
    CreatedConfig(b, volume, trace[k].op.config);
  }

  /** A machine is deleted only when the newest reading of its power state did not show it running, or
      it has been stopped since. */
  lemma DeletedWhenDown(b: Build, trace: seq<Event>, k: nat, vmid: int, j: nat)
    requires Legal(b, trace) && j < k < |trace| && trace[k].Begun? && trace[k].op == DeleteVM(vmid)
    requires SeenUp(trace[..j + 1], vmid)
    ensures exists i :: j < i < k &&
              (trace[i] == Waited(StopVM(vmid), true)
               || (trace[i].StatusRead? && trace[i].vmid == vmid && !SeenUp(trace[..i + 1], vmid)))
  {
    hide Legal, MayBegin, WorldAfter;
    LegalAt(b, trace, k);
    assert trace[..k][k - 1] == trace[k - 1];
    assert trace[..j + 1][j] == trace[j] && trace[..k - 1 + 1] == trace[..k];
    assert k - 1 != j;
  }

  /** The configuration is touched only after the machine was started and, after that, seen stopped. */
  lemma ChangedOnlyWhenStopped(b: Build, trace: seq<Event>, k: nat, vmid: int)
    requires WellFormed(b) && Legal(b, trace) && k < |trace| && trace[k].Begun?
    requires trace[k].op == TemplateVM(vmid) || (trace[k].op.UpdateVM? && trace[k].op.vmid == vmid)
    ensures RanAndStopped(trace[..k], vmid)
  {
    LegalAt(b, trace, k);
    LegalPrefix(b, trace, k);
    LegalMachines(b, trace[..k]);
    var w := WorldAfter(b, trace[..k]);
    assert MachineInv(b, trace[..k], vmid, w.vms[vmid]);
  }

  lemma ChangesDiffer(b: Build)
    requires WellFormed(b)
    ensures FinalizeChange(b) != CloudInitChange(b) && FinalizeChange(b) != OptionsChange(b)
    ensures CloudInitChange(b) != OptionsChange(b)
  {
    assert "ide2" in FinalizeChange(b).drop && "ide2" in CloudInitChange(b).values;
    assert "ide2" !in OptionsChange(b).values;
  }

  lemma OneMoreChange(created: Config, changes: seq<Change>, change: Change)
    ensures AfterChanges(created, changes + [change]) == Changed(AfterChanges(created, changes), change)
  {
    assert (changes + [change])[..|changes|] == changes;
  }

  lemma OnlyChange(created: Config, change: Change)
    ensures AfterChanges(created, [change]) == Changed(created, change)
  {
    OneMoreChange(created, [], change);
    assert [] + [change] == [change];
  }

  /** After finalizing, neither the installer's drive nor its serial console is left. */
  lemma FinalizedDrops(b: Build, created: Config)
    ensures var c := AfterChanges(created, [FinalizeChange(b)]);
            "ide2" !in c && "serial0" !in c
  {
    OnlyChange(created, FinalizeChange(b));
  }

  /** What a finished change needs before it: Cloud-Init comes when the installer's drive and console
      are gone, options when Cloud-Init has finished too, and the conversion to a template when
      everything that was asked for has finished. */
  lemma FinalizedFirst(b: Build, trace: seq<Event>, k: nat, vmid: int)
    requires WellFormed(b) && Legal(b, trace) && k < |trace| && trace[k].Begun?
    requires trace[k].op == TemplateVM(vmid)
             || (trace[k].op.UpdateVM? && trace[k].op.vmid == vmid && trace[k].op.change != FinalizeChange(b))
    ensures Waited(UpdateVM(vmid, FinalizeChange(b)), true) in trace[..k]
    ensures trace[k].op.UpdateVM? ==> trace[k].op.change in {CloudInitChange(b), OptionsChange(b)}
    ensures trace[k].op == UpdateVM(vmid, CloudInitChange(b)) ==>
              && b.cloudInitEnabled
              && var c := ConfigOf(WorldAfter(b, trace[..k]).vms[vmid]);
                 "ide2" !in c && "serial0" !in c
    ensures trace[k].op == UpdateVM(vmid, OptionsChange(b)) || trace[k].op.TemplateVM? ==>
              b.cloudInitEnabled ==> Waited(UpdateVM(vmid, CloudInitChange(b)), true) in trace[..k]
    ensures trace[k].op.TemplateVM? ==>
              && (HasOptions(b) ==> Waited(UpdateVM(vmid, OptionsChange(b)), true) in trace[..k])
              && var w := WorldAfter(b, trace[..k]);
                 vmid in w.vms && ConfigOf(w.vms[vmid]) == Finished(b, w.vms[vmid].created)
  {
    hide CreateValues, WorldAfter, Legal, WellFormed, RanAndStopped, Changed;
    LegalAt(b, trace, k);
    LegalPrefix(b, trace, k);
    LegalMachines(b, trace[..k]);
    var vm := WorldAfter(b, trace[..k]).vms[vmid];
    assert MachineInv(b, trace[..k], vmid, vm);
    ChangesDiffer(b);
    FinalizedDrops(b, vm.created);
  }

  lemma {:induction false} DeletionsCounted(b: Build, trace: seq<Event>, v: string)
    ensures Waited(DeleteVolume(v), true) in trace ==> WorldAfter(b, trace).deletions > 0
  {
    if trace != [] {
      DeletionsCounted(b, trace[..|trace| - 1], v);
      assert trace == trace[..|trace| - 1] + [trace[|trace| - 1]];
    }
  }

  /** Only the volume that this run's upload returned is ever deleted, and a deletion that succeeded
      is the last one. */
  lemma OnlyOwnImage(b: Build, trace: seq<Event>, k: nat, volume: string)
    requires Legal(b, trace) && k < |trace| && trace[k].Begun? && trace[k].op == DeleteVolume(volume)
    ensures Uploaded(volume, true) in trace[..k]
    ensures forall v :: Waited(DeleteVolume(v), true) !in trace[..k]
  {
    LegalAt(b, trace, k);
    LegalPrefix(b, trace, k);
    LegalImages(b, trace[..k]);
    var w := WorldAfter(b, trace[..k]);
    assert w.volumes != {} && |w.volumes| >= 1;
    forall v
      ensures Waited(DeleteVolume(v), true) !in trace[..k]
    {
      DeletionsCounted(b, trace[..k], v);
    }
  }

  /** The image is uploaded only after its name was seen absent and both storages were found to
      fit everything the build puts on them, as long as that fits 64 bits. */
  lemma UploadMeansSpace(b: Build, trace: seq<Event>, k: nat, storage: string)
    requires Legal(b, trace) && k < |trace| && trace[k].Uploaded?
    requires storage == b.plan.isoStorage || storage == b.plan.diskStorage
    requires 0 <= b.plan.isoBytes <= MAX_INT64
    ensures VolumeChecked(ISOVolume(b), true, false) in trace[..k]
    ensures exists status: StorageStatus ::
              && StorageChecked(storage, Some(status)) in trace[..k]
              && AllocationBytes(b.plan.diskSize).Some? && status.avail.Some?
              && var total := TrueTotal(TrueDemands(b.plan, AllocationBytes(b.plan.diskSize).value), storage);
                 (total <= MAX_INT64 ==> total <= status.avail.value)
  {
    hide Legal, WorldAfter, AllocationBytes, TrueTotal, Collected, ISOVolume;
    LegalAt(b, trace, k);
    LegalPrefix(b, trace, k);
    LegalImages(b, trace[..k]);
    AcceptedWasChecked(b, trace[..k], storage);
    var status :| StorageChecked(storage, status) in trace[..k] && StorageAccepted(b, storage, status);
    AcceptedMeansFits(b.plan, AllocationBytes(b.plan.diskSize).value, storage, status.value);
  }

  lemma CloudInitUnfolds(b: Build, created: Config)
    ensures var finalized := Changed(created, FinalizeChange(b));
            AfterChanges(created, CloudInitSteps(b)) ==
              if b.cloudInitEnabled then Changed(finalized, CloudInitChange(b)) else finalized
  {
    hide Changed, FinalizeChange, CloudInitChange, AfterChanges;
    OnlyChange(created, FinalizeChange(b));
    if b.cloudInitEnabled {
      OneMoreChange(created, [FinalizeChange(b)], CloudInitChange(b));
    } else {
      assert CloudInitSteps(b) == [FinalizeChange(b)];
    }
  }

  lemma FinishedUnfolds(b: Build, created: Config)
    ensures var prepared := AfterChanges(created, CloudInitSteps(b));
            Finished(b, created) == if HasOptions(b) then Changed(prepared, OptionsChange(b)) else prepared
  {
    hide Changed, CloudInitSteps, OptionsChange, AfterChanges;
    if HasOptions(b) {
      OneMoreChange(created, CloudInitSteps(b), OptionsChange(b));
    } else {
      assert AllSteps(b) == CloudInitSteps(b);
    }
  }

  lemma SetOnly(c: Config, values: Config)
    ensures Changed(c, Change({}, values)) == c + values
  {
  }

  lemma AddBeside(own: Config, fixed: Config, more: Config, drive: Config)
    requires fixed.Keys !! more.Keys
    ensures own + fixed + (more + drive) == own + more + fixed + drive
  {
  }

  lemma AddAround(own: Config, fixed: Config, drive: Config, more: Config)
    requires fixed.Keys !! more.Keys && drive.Keys !! more.Keys
    ensures own + fixed + drive + more == own + more + fixed + drive
  {
  }

  lemma DropTwoSetTwo<K, V>(own: map<K, V>, drive: K, disk: K, boot: K, console: K, display: K,
                            v1: V, v2: V, v3: V, v4: V, v5: V, newBoot: V, newDisplay: V)
    requires drive !in own && console !in own
    requires disk != drive && disk != console && drive != boot && drive != display && console != boot && console != display
    ensures own + map[drive := v1, disk := v2, boot := v3, console := v4, display := v5] - {drive, console}
              + map[boot := newBoot, display := newDisplay]
         == own + map[disk := v2, boot := newBoot, display := newDisplay]
  {
  }

  /** A disk that is alone in the boot order, and a standard display. */
  function DiskOnly(b: Build): Config {
    map[b.diskKey := b.diskSpec, "boot" := "order=" + b.diskKey, "vga" := "std"]
  }

  lemma FinalizedConfig(b: Build, volume: string, created: Config)
    requires WellFormed(b) && CreateValues(b, volume) == Some(created)
    ensures Changed(created, FinalizeChange(b)) == b.hardware + DiskOnly(b)
  {
    hide AllocationGiB, TrimSpace;
    assert b.diskKey !in PROTOCOL_KEYS;
    assert "ide2" !in b.hardware && "serial0" !in b.hardware;
    DropTwoSetTwo(b.hardware, "ide2", b.diskKey, "boot", "serial0", "vga", volume + ",media=cdrom", b.diskSpec,
                  "order=ide2;" + b.diskKey, "socket", "serial0", "order=" + b.diskKey, "std");
  }

  lemma DiskOnlyKeys(b: Build)
    ensures DiskOnly(b).Keys == {b.diskKey, "boot", "vga"}
  {
  }

  function CloudInitOf(b: Build): Config {
    if b.cloudInitEnabled then b.cloudInit else map[]
  }

  function OptionsOf(b: Build): Config {
    if HasOptions(b) then b.options else map[]
  }

  function DriveOf(b: Build): Config {
    if b.cloudInitEnabled then map["ide2" := b.plan.diskStorage + ":cloudinit"] else map[]
  }

  lemma PreparedConfig(b: Build, volume: string, created: Config)
    requires WellFormed(b) && CreateValues(b, volume) == Some(created)
    ensures AfterChanges(created, CloudInitSteps(b)) == b.hardware + CloudInitOf(b) + DiskOnly(b) + DriveOf(b)
  {
    hide AfterChanges, CloudInitSteps, CreateValues, FinalizeChange, DiskOnly, Changed;
    CloudInitUnfolds(b, created);
    FinalizedConfig(b, volume, created);
    if b.cloudInitEnabled {
      DiskOnlyKeys(b);
      assert CloudInitChange(b).values == CloudInitOf(b) + DriveOf(b);
      SetOnly(b.hardware + DiskOnly(b), CloudInitChange(b).values);
      AddBeside(b.hardware, DiskOnly(b), CloudInitOf(b), DriveOf(b));
    } else {
      assert b.hardware + map[] + DiskOnly(b) + map[] == b.hardware + DiskOnly(b);
    }
  }

  /** Nor is it uploaded unless both storages are switched on and allow what is put on them. */
  lemma UploadMeansUsable(b: Build, trace: seq<Event>, k: nat, storage: string)
    requires Legal(b, trace) && k < |trace| && trace[k].Uploaded?
    requires storage == b.plan.isoStorage || storage == b.plan.diskStorage
    ensures exists status: StorageStatus ::
              && StorageChecked(storage, Some(status)) in trace[..k]
              && !SaysFalse(status.active) && !SaysFalse(status.enabled) && HasText(status.content)
              && (storage == b.plan.isoStorage ==> ContentAllows(status.content, "iso"))
              && (storage == b.plan.diskStorage ==> ContentAllows(status.content, "images"))
  {
    hide Legal, WorldAfter, AllocationBytes, Collected, ISOVolume, SaysFalse, HasText, ContentAllows, Accepts;
    LegalAt(b, trace, k);
    LegalPrefix(b, trace, k);
    AcceptedWasChecked(b, trace[..k], storage);
    var status :| StorageChecked(storage, status) in trace[..k] && StorageAccepted(b, storage, status);
    AcceptedIff(RequirementsOf(b.plan).value[storage], status.value);
    AcceptedMeansAllowed(b.plan, AllocationBytes(b.plan.diskSize).value, storage, status.value);
  }

  /** The configuration that a successful build leaves: what the user asked for, a disk that is alone in
      the boot order, a standard display, no serial console, and as second IDE drive the Cloud-Init
      drive or nothing. */
  lemma FinishedConfig(b: Build, volume: string, created: Config)
    requires WellFormed(b) && CreateValues(b, volume) == Some(created)
    ensures Finished(b, created) == b.hardware + CloudInitOf(b) + OptionsOf(b) + DiskOnly(b) + DriveOf(b)
  {
    hide AfterChanges, AllSteps, CloudInitSteps, Finished, CreateValues, FinalizeChange, DiskOnly, CloudInitOf, Changed;
    FinishedUnfolds(b, created);
    PreparedConfig(b, volume, created);
    DiskOnlyKeys(b);
    var own := b.hardware + CloudInitOf(b);
    if HasOptions(b) {
      SetOnly(AfterChanges(created, CloudInitSteps(b)), b.options);
    } else {
      assert own + DiskOnly(b) + DriveOf(b) + map[] == own + DiskOnly(b) + DriveOf(b);
    }
    AddAround(own, DiskOnly(b), DriveOf(b), OptionsOf(b));
  }
}
