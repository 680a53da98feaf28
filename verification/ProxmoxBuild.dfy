/** The Proxmox template build: a protocol over an API that may fail at any call and a context
    that may be cancelled at any call, with a deferred cleanup. The API is a script of answers,
    so a property proved for every script holds for every outcome and cancellation point. */
module ProxmoxBuild {
  import opened Text
  import opened StoragePreflight

  // ---------------------------------------------------------------- what a build asks for

  type Config = map<string, string>

  datatype VMInfo = VMInfo(vmid: int, name: string)

  datatype OutputType = VirtualMachine | Template

  datatype Build = Build(
    host: string, tokenID: string, tokenSecret: string, node: string,
    requestedVMID: int,
    name: string,
    isoFileName: string,
    plan: Plan,                       // the storages and sizes
    storageOrder: seq<string>,        // the order in which the preflight visits the storages
    diskKey: string,
    bridge: string,
    hardwareValid: bool,
    hardware: Config,                 // the create values that do not concern the protocol
    diskSpec: string,
    cloudInitEnabled: bool, cloudInitValid: bool, cloudInit: Config,
    optionsEnabled: bool, optionsValid: bool, options: Config,
    output: OutputType)

  const PROTOCOL_KEYS := {"ide2", "serial0", "boot", "vga"}

  /** What the option builders guarantee: the disk device is one of the four interfaces, and
      neither options nor Cloud-Init values touch devices, boot order or display. */
  ghost predicate WellFormed(b: Build) {
    && b.diskKey in {"scsi0", "sata0", "virtio0", "ide0"}
    && b.hardware.Keys !! (PROTOCOL_KEYS + {b.diskKey})
    && b.cloudInit.Keys !! (PROTOCOL_KEYS + {b.diskKey})
    && b.options.Keys !! (PROTOCOL_KEYS + {b.diskKey})
    && (forall s :: s in b.storageOrder <==> s == b.plan.isoStorage || s == b.plan.diskStorage)
  }

  function ISOVolume(b: Build): string {
    b.plan.isoStorage + [':'] + ("iso/" + b.isoFileName)
  }

  lemma VolumeIsNotBlank(storage: string, rest: string)
    ensures TrimSpace(storage + [':'] + rest) != ""
  {
    hide TrimLeft, TrimRight;
    var v := storage + [':'] + rest;
    assert v[|storage|] == ':' && !IsSpace(v[|storage|]);
    var left := TrimLeft(v);
    assert |v| - |left| <= |storage|;
    assert left[|storage| - (|v| - |left|)] == ':';
    assert |TrimRight(left)| > |storage| - (|v| - |left|);
  }

  lemma ISOVolumeIsNotBlank(b: Build)
    ensures TrimSpace(ISOVolume(b)) != ""
  {
    VolumeIsNotBlank(b.plan.isoStorage, "iso/" + b.isoFileName);
  }

  lemma NotBlank(s: string)
    ensures TrimSpace(s) != "" ==> s != ""
  {
    assert TrimSpace("") == "";
  }

  predicate FieldsValid(b: Build) {
    && TrimSpace(b.host) != "" && TrimSpace(b.plan.diskStorage) != "" && TrimSpace(b.plan.isoStorage) != ""
    && TrimSpace(b.tokenID) != "" && TrimSpace(b.tokenSecret) != "" && TrimSpace(b.node) != ""
    && b.requestedVMID >= 0
  }

  /** All six required fields have some text. */
  lemma FieldsValidIff(b: Build)
    ensures FieldsValid(b) <==>
              && b.requestedVMID >= 0
              && forall field <- [b.host, b.plan.diskStorage, b.plan.isoStorage, b.tokenID, b.tokenSecret, b.node] ::
                   HasText(field)
  {
    hide TrimSpace, HasText;
    var fields := [b.host, b.plan.diskStorage, b.plan.isoStorage, b.tokenID, b.tokenSecret, b.node];
    forall field <- fields
      ensures TrimSpace(field) != "" <==> HasText(field)
    {
      TrimSpaceIsBlank(field);
    }
    assert fields[0] in fields && fields[1] in fields && fields[2] in fields && fields[3] in fields
        && fields[4] in fields && fields[5] in fields;
  }

  predicate TargetTaken(b: Build, vms: seq<VMInfo>) {
    exists k :: 0 <= k < |vms| &&
      (|| (b.requestedVMID > 0 && vms[k].vmid == b.requestedVMID)
       || Lower(TrimSpace(vms[k].name)) == Lower(TrimSpace(b.name)))
  }

  predicate Configured(b: Build) {
    b.hardwareValid && (b.cloudInitEnabled ==> b.cloudInitValid) && (b.optionsEnabled ==> b.optionsValid)
  }

  ghost predicate SameName(a: string, b: string) {
    var s, t := TrimSpace(a), TrimSpace(b);
    |s| == |t| && forall k :: 0 <= k < |s| ==> LowerChar(s[k]) == LowerChar(t[k])
  }

  lemma EqualFold(s: string, t: string)
    ensures Lower(s) == Lower(t) <==> |s| == |t| && forall k :: 0 <= k < |s| ==> LowerChar(s[k]) == LowerChar(t[k])
  {
    if Lower(s) == Lower(t) {
      assert forall k :: 0 <= k < |s| ==> Lower(s)[k] == LowerChar(s[k]) && Lower(t)[k] == LowerChar(t[k]);
    }
  }

  /** In other words: some machine has the requested id, or the same name but for case and white space around
      it. */
  lemma TakenIff(b: Build, vms: seq<VMInfo>)
    ensures TargetTaken(b, vms) <==>
              exists vm <- vms :: (vm.vmid == b.requestedVMID > 0) || SameName(vm.name, b.name)
  {
    hide TrimSpace, Lower;
    forall vm <- vms
      ensures Lower(TrimSpace(vm.name)) == Lower(TrimSpace(b.name)) <==> SameName(vm.name, b.name)
    {
      EqualFold(TrimSpace(vm.name), TrimSpace(b.name));
    }
    if TargetTaken(b, vms) {
      var k :| 0 <= k < |vms| && ((b.requestedVMID > 0 && vms[k].vmid == b.requestedVMID)
                                  || Lower(TrimSpace(vms[k].name)) == Lower(TrimSpace(b.name)));
      assert vms[k] in vms;
    }
    forall vm <- vms | (vm.vmid == b.requestedVMID > 0) || SameName(vm.name, b.name)
      ensures TargetTaken(b, vms)
    {
      var k :| 0 <= k < |vms| && vms[k] == vm;
    }
  }

  /** What is decided before any call: the storage sizes, the hardware, the bridge, and the Cloud-Init
      and option configurations that are asked for. */
  predicate Buildable(b: Build) {
    AllocationBytes(b.plan.diskSize).Some? && TrimSpace(b.bridge) != "" && Configured(b)
  }

  /** BuildCreateVMValues */
  function CreateValues(b: Build, volume: string): Option<Config> {
    if !b.hardwareValid || TrimSpace(b.bridge) == "" || AllocationGiB(b.plan.diskSize).None? then None
    else Some(b.hardware + map[
      "ide2" := volume + ",media=cdrom",
      b.diskKey := b.diskSpec,
      "boot" := "order=ide2;" + b.diskKey,
      "serial0" := "socket",
      "vga" := "serial0"])
  }

  /** A configuration change: keys to delete, then values to set. */
  datatype Change = Change(drop: set<string>, values: Config)

  function Changed(c: Config, change: Change): Config {
    (c - change.drop) + change.values
  }

  /** BuildFinalizeVMValues, without the unchanged CPU and memory values */
  function FinalizeChange(b: Build): Change {
    Change({"ide2", "serial0"}, map["boot" := "order=" + b.diskKey, "vga" := "std"])
  }

  /** BuildCloudInitValues */
  function CloudInitChange(b: Build): Change {
    Change({}, b.cloudInit["ide2" := b.plan.diskStorage + ":cloudinit"])
  }

  function OptionsChange(b: Build): Change {
    Change({}, b.options)
  }

  /** The configuration after some changes. */
  function AfterChanges(created: Config, changes: seq<Change>): Config {
    if changes == [] then created
    else Changed(AfterChanges(created, changes[..|changes| - 1]), changes[|changes| - 1])
  }

  /** The changes that a build makes, in their order: finalizing, then Cloud-Init and options
      where asked for. */
  function CloudInitSteps(b: Build): seq<Change> {
    [FinalizeChange(b)] + if b.cloudInitEnabled then [CloudInitChange(b)] else []
  }

  predicate HasOptions(b: Build) {
    b.optionsEnabled && |b.options| > 0
  }

  function AllSteps(b: Build): seq<Change> {
    CloudInitSteps(b) + if HasOptions(b) then [OptionsChange(b)] else []
  }

  /** The configuration a finished build leaves behind. */
  function Finished(b: Build, created: Config): Config {
    AfterChanges(created, AllSteps(b))
  }

  // ---------------------------------------------------------------- the API and its world

  datatype Op =
    | CreateVM(vmid: int, config: Config)
    | StartVM(vmid: int)
    | UpdateVM(vmid: int, change: Change)
    | TemplateVM(vmid: int)
    | StopVM(vmid: int)
    | DeleteVM(vmid: int)
    | DeleteVolume(volume: string)

  /** One call and its outcome. Begun is the request that starts a task, Waited the wait for it. */
  datatype Event =
    | NodeValidated(ok: bool)
    | Listed(ok: bool, vms: seq<VMInfo>)
    | ISOCreated(ok: bool)
    | StorageChecked(storage: string, status: Option<StorageStatus>)
    | VolumeChecked(volume: string, ok: bool, found: bool)
    | Uploaded(volume: string, ok: bool)
    | IDAllocated(ok: bool, id: int)
    | Begun(op: Op, ok: bool)
    | Waited(op: Op, ok: bool)
    | StatusRead(vmid: int, ok: bool, power: string, late: bool)   // late: asked after a cancellation

  /** Stopped: seen stopped by itself. Halted: stopped by this run. */
  datatype Stage = Created | Running | Stopped | Halted

  /** A machine with the configuration it was created with and the changes that finished since. */
  datatype VM = VM(created: Config, changes: seq<Change>, stage: Stage, template: bool)

  function ConfigOf(vm: VM): Config {
    AfterChanges(vm.created, vm.changes)
  }

  datatype Check = NodeKnown | TargetFree | ImageMade

  /** What this run knows and has made: the checks that passed, storages that passed the preflight,
      volume names seen absent, the ids it was offered, its uploads that still exist, how many it
      deleted, and its machines. */
  datatype World = World(
    ready: set<Check>,
    accepted: set<string>,
    absent: set<string>,
    offered: set<int>,
    volumes: set<string>,
    deletions: nat,
    vms: map<int, VM>)

  const EMPTY_WORLD := World({}, {}, {}, {}, {}, 0, map[])

  function Effect(w: World, op: Op): World {
    match op
    case CreateVM(vmid, config) => w.(vms := w.vms[vmid := VM(config, [], Created, false)])
    case StartVM(vmid) =>
      if vmid in w.vms then w.(vms := w.vms[vmid := w.vms[vmid].(stage := Running)]) else w
    case UpdateVM(vmid, change) =>
      if vmid in w.vms then
        w.(vms := w.vms[vmid := w.vms[vmid].(changes := w.vms[vmid].changes + [change])]) else w
    case TemplateVM(vmid) =>
      if vmid in w.vms then w.(vms := w.vms[vmid := w.vms[vmid].(template := true)]) else w
    case StopVM(vmid) =>
      if vmid in w.vms then w.(vms := w.vms[vmid := w.vms[vmid].(stage := Halted)]) else w
    case DeleteVM(vmid) => w.(vms := w.vms - {vmid})
    case DeleteVolume(volume) => w.(volumes := w.volumes - {volume}, deletions := w.deletions + 1)
  }

  /** The requirement check of the preflight; a storage it does not ask for is never accepted. */
  predicate StorageAccepted(b: Build, storage: string, status: Option<StorageStatus>) {
    && status.Some?
    && RequirementsOf(b.plan).Some?
    && storage in RequirementsOf(b.plan).value
    && Accepts(RequirementsOf(b.plan).value[storage], status.value)
  }

  function Apply(b: Build, w: World, e: Event): World {
    match e
    case NodeValidated(ok) => if ok then w.(ready := w.ready + {NodeKnown}) else w
    case Listed(ok, vms) => if ok && !TargetTaken(b, vms) then w.(ready := w.ready + {TargetFree}) else w
    case ISOCreated(ok) => if ok then w.(ready := w.ready + {ImageMade}) else w
    case IDAllocated(ok, id) => if ok then w.(offered := w.offered + {id}) else w
    case StorageChecked(storage, status) =>
      if StorageAccepted(b, storage, status) then w.(accepted := w.accepted + {storage}) else w
    case VolumeChecked(volume, ok, found) =>
      if ok && !found then w.(absent := w.absent + {volume}) else w
    case Uploaded(volume, ok) => if ok then w.(volumes := w.volumes + {volume}) else w
    case Waited(op, ok) => if ok then Effect(w, op) else w
    case StatusRead(vmid, ok, power, _) =>
      if ok && power == "stopped" && vmid in w.vms && w.vms[vmid].stage == Running
      then w.(vms := w.vms[vmid := w.vms[vmid].(stage := Stopped)]) else w
    case Begun(_, _) => w
  }

  function WorldAfter(b: Build, trace: seq<Event>): World {
    if trace == [] then EMPTY_WORLD
    else Apply(b, WorldAfter(b, trace[..|trace| - 1]), trace[|trace| - 1])
  }

  // ---------------------------------------------------------------- the protocol

  /** The requested id, or else one that the API offered. */
  predicate MayUse(b: Build, w: World, vmid: int) {
    vmid > 0 && if b.requestedVMID > 0 then vmid == b.requestedVMID else vmid in w.offered
  }

  /** When a task may be started. */
  ghost predicate MayBegin(b: Build, w: World, op: Op) {
    match op
    case CreateVM(vmid, config) =>
      && MayUse(b, w, vmid) && w.vms == map[]
      && exists volume :: volume in w.volumes && CreateValues(b, volume) == Some(config)
    case StartVM(vmid) => vmid in w.vms && w.vms[vmid].stage == Created
    case UpdateVM(vmid, change) =>
      && vmid in w.vms && w.vms[vmid].stage == Stopped && !w.vms[vmid].template
      && var done := w.vms[vmid].changes;
         || (change == FinalizeChange(b) && done == [])
         || (change == CloudInitChange(b) && b.cloudInitEnabled && done == [FinalizeChange(b)])
         || (change == OptionsChange(b) && HasOptions(b) && done == CloudInitSteps(b))
    case TemplateVM(vmid) =>
      && vmid in w.vms && w.vms[vmid].stage == Stopped && !w.vms[vmid].template
      && w.vms[vmid].changes == AllSteps(b)
    case StopVM(vmid) => vmid in w.vms
    case DeleteVM(vmid) => vmid in w.vms
    case DeleteVolume(volume) => volume in w.volumes
  }

  /** The call just made read the machine's power state as something else than stopped. */
  ghost predicate SeenUp(trace: seq<Event>, vmid: int) {
    && trace != []
    && var e := trace[|trace| - 1];
       e.StatusRead? && e.vmid == vmid && e.ok && e.power != "" && e.power != "stopped"
  }

  /** The call just made read it as stopped, could not tell, or finished stopping the machine. */
  ghost predicate SeenDown(trace: seq<Event>, vmid: int) {
    && trace != []
    && var e := trace[|trace| - 1];
       || (e.StatusRead? && e.vmid == vmid && (e.ok ==> e.power == "" || e.power == "stopped"))
       || e == Waited(StopVM(vmid), true)
  }

  ghost predicate MayStart(b: Build, trace: seq<Event>, w: World, op: Op) {
    && MayBegin(b, w, op)
    && (op.StopVM? ==> SeenUp(trace, op.vmid))
    && (op.DeleteVM? ==> SeenDown(trace, op.vmid))
  }

  /** A cancelled wait asks no further. */
  ghost predicate MayPoll(trace: seq<Event>, late: bool) {
    late ==> trace == [] || !trace[|trace| - 1].StatusRead?
  }

  /** When a call may follow the calls made so far. */
  ghost predicate MayFollow(b: Build, trace: seq<Event>, e: Event) {
    var w := WorldAfter(b, trace);
    match e
    case StorageChecked(storage, _) => storage == b.plan.isoStorage || storage == b.plan.diskStorage
    case VolumeChecked(volume, _, _) => volume == ISOVolume(b)
    case Uploaded(_, _) =>
      && w.ready == {NodeKnown, TargetFree, ImageMade}
      && b.plan.isoStorage in w.accepted && b.plan.diskStorage in w.accepted
      && ISOVolume(b) in w.absent
      && w.volumes == {} && w.deletions == 0 && w.vms == map[]
    case Begun(op, _) => MayStart(b, trace, w, op)
    case Waited(op, _) => trace != [] && trace[|trace| - 1] == Begun(op, true)
    case StatusRead(_, _, _, late) => MayPoll(trace, late)
    case _ => true
  }

  ghost predicate Legal(b: Build, trace: seq<Event>) {
    forall k :: 0 <= k < |trace| ==> MayFollow(b, trace[..k], trace[k])
  }

  lemma WorldOfLonger(b: Build, trace: seq<Event>, e: Event)
    ensures WorldAfter(b, trace + [e]) == Apply(b, WorldAfter(b, trace), e)
  {
    assert (trace + [e])[..|trace|] == trace;
  }

  lemma LegalExtends(b: Build, trace: seq<Event>, e: Event)
    requires Legal(b, trace) && MayFollow(b, trace, e)
    ensures Legal(b, trace + [e])
    ensures WorldAfter(b, trace + [e]) == Apply(b, WorldAfter(b, trace), e)
  {
    hide MayFollow, WorldAfter;
    var longer := trace + [e];
    assert longer[..|trace|] == trace;
    forall k | 0 <= k < |longer|
      ensures MayFollow(b, longer[..k], longer[k])
    {
      if k < |trace| {
        assert longer[..k] == trace[..k] && longer[k] == trace[k];
      }
    }
    WorldOfLonger(b, trace, e);
  }

  // ---------------------------------------------------------------- answers

  /** One answer of the API. A call reads the part it needs; `cancels` says that the context is
      cancelled while the call runs. */
  datatype Answer = Answer(
    ok: bool, text: string, number: int, found: bool, vms: seq<VMInfo>,
    storage: StorageStatus, cancels: bool)

  const NO_ANSWER := Answer(false, "", 0, false, [], StorageStatus(Null, Null, "", None), false)

  /** The answer to call k; a call past the end of the script fails. */
  function AnswerTo(script: seq<Answer>, k: nat): Answer {
    if k < |script| then script[k] else NO_ANSWER
  }

  /** The name the API gives the volume, or the expected name when it gives none. */
  function UploadedName(b: Build, a: Answer): string {
    if TrimSpace(a.text) == "" then ISOVolume(b) else a.text
  }

  /** The event that an answer makes of a call. */
  predicate Answered(b: Build, e: Event, a: Answer) {
    match e
    case NodeValidated(ok) => ok == a.ok
    case Listed(ok, vms) => ok == a.ok && vms == a.vms
    case ISOCreated(ok) => ok == a.ok
    case StorageChecked(_, status) => status == if a.ok then Some(a.storage) else None
    case VolumeChecked(_, ok, found) => ok == a.ok && found == a.found
    case Uploaded(volume, ok) => ok == a.ok && volume == UploadedName(b, a)
    case IDAllocated(ok, id) => ok == a.ok && id == a.number
    case Begun(_, ok) => ok == a.ok
    case Waited(_, ok) => ok == a.ok
    case StatusRead(_, ok, power, _) => ok == a.ok && power == a.text
  }

  /** What the build can go on from. */
  predicate Good(b: Build, e: Event) {
    match e
    case NodeValidated(ok) => ok
    case Listed(ok, vms) => ok && !TargetTaken(b, vms)
    case ISOCreated(ok) => ok
    case StorageChecked(storage, status) => StorageAccepted(b, storage, status)
    case VolumeChecked(_, ok, found) => ok && !found
    case Uploaded(_, ok) => ok
    case IDAllocated(ok, id) => ok && id > 0
    case Begun(_, ok) => ok
    case Waited(_, ok) => ok
    case StatusRead(_, ok, _, _) => ok
  }

  ghost predicate AllGood(b: Build, trace: seq<Event>) {
    forall k :: 0 <= k < |trace| ==> Good(b, trace[k])
  }

  /** The calls of a trace got the answers of a script, one after another. */
  ghost predicate Answers(b: Build, trace: seq<Event>, script: seq<Answer>) {
    forall k :: 0 <= k < |trace| ==> Answered(b, trace[k], AnswerTo(script, k))
  }

  ghost predicate CancelledWithin(script: seq<Answer>, from: nat, to: nat) {
    exists k: nat :: from <= k < to && AnswerTo(script, k).cancels
  }

  /** The part of a script that is left after some calls. */
  function Rest(script: seq<Answer>, calls: nat): seq<Answer> {
    if calls <= |script| then script[calls..] else []
  }

  /** Every task of a stretch of calls was accepted and finished. */
  ghost predicate AllOk(events: seq<Event>) {
    forall k :: 0 <= k < |events| && (events[k].Begun? || events[k].Waited?) ==> events[k].ok
  }

  /** Every task that deletes the image was. */
  ghost predicate DeletesOk(events: seq<Event>) {
    forall k :: 0 <= k < |events| && (events[k].Begun? || events[k].Waited?) && events[k].op.DeleteVolume? ==>
      events[k].ok
  }

  /** The API accepted to create a machine. */
  ghost predicate Creates(events: seq<Event>) {
    exists k :: 0 <= k < |events| && events[k].Begun? && events[k].op.CreateVM? && events[k].ok
  }

  /** The last call found the machine still running. */
  ghost predicate EndsWaiting(trace: seq<Event>) {
    && trace != []
    && var e := trace[|trace| - 1];
       e.StatusRead? && e.ok && e.power != "stopped"
  }

  /** The calls that one finished task leaves in the trace. */
  function Done(op: Op): seq<Event> {
    [Begun(op, true), Waited(op, true)]
  }

  // ---------------------------------------------------------------- the client

  /** Where the client stands: what it has asked, what is left of the script, whether its context is
      cancelled, counting from the call at which the context was new. */
  ghost predicate Scripted(b: Build, given: seq<Answer>, script: seq<Answer>, trace: seq<Event>, renewed: nat,
                           cancelled: bool, good: bool) {
    && script == Rest(given, |trace|)
    && Answers(b, trace, given)
    && renewed <= |trace|
    && (cancelled <==> CancelledWithin(given, renewed, |trace|))
    && (good <==> AllGood(b, trace))
  }

  lemma StartScripted(b: Build, given: seq<Answer>)
    ensures Scripted(b, given, given, [], 0, false, true)
  {
  }

  lemma StillScripted(b: Build, given: seq<Answer>, trace: seq<Event>, renewed: nat, cancelled: bool, good: bool,
                      e: Event)
    requires Scripted(b, given, Rest(given, |trace|), trace, renewed, cancelled, good)
    requires Answered(b, e, AnswerTo(given, |trace|))
    ensures Scripted(b, given, Rest(given, |trace| + 1), trace + [e], renewed,
                     cancelled || AnswerTo(given, |trace|).cancels, good && Good(b, e))
  {
    hide Answered, Good;
    var longer := trace + [e];
    assert longer[|trace|] == e;
    assert forall k :: 0 <= k < |trace| ==> longer[k] == trace[k];
    assert AllGood(b, longer) <==> AllGood(b, trace) && Good(b, e);
    assert CancelledWithin(given, renewed, |trace| + 1)
      <==> CancelledWithin(given, renewed, |trace|) || AnswerTo(given, |trace|).cancels;
  }

  class Client {
    const b: Build
    ghost const given: seq<Answer>
    var script: seq<Answer>      // the answers to come
    var cancelled: bool          // ctx.Err() != nil
    var trace: seq<Event>
    ghost var world: World
    ghost var renewed: nat
    ghost var good: bool

    ghost predicate Valid()
      reads this
    {
      && world == WorldAfter(b, trace) && Legal(b, trace)
      && Scripted(b, given, script, trace, renewed, cancelled, good)
    }

    constructor (b: Build, script: seq<Answer>)
      ensures this.b == b && this.given == script && !cancelled && trace == [] && renewed == 0 && good
      ensures Valid() && world == EMPTY_WORLD
    {
      this.b := b;
      given := script;
      this.script := script;
      cancelled := false;
      trace := [];
      world := EMPTY_WORLD;
      renewed := 0;
      good := true;
      new;
      StartScripted(b, script);
    }

    /** At most so many calls later, with a context that stays cancelled. */
    ghost predicate After(before: seq<Event>, wasCancelled: bool, wasRenewed: nat, calls: nat)
      reads this
    {
      before <= trace && |trace| <= |before| + calls && (wasCancelled ==> cancelled) && renewed == wasRenewed
    }

    /** One call: its answer is the next of the script and makes an event. */
    method Call(event: Answer -> Event) returns (a: Answer)
      requires Valid()
      requires forall a :: MayFollow(b, trace, event(a)) && Answered(b, event(a), a)
      modifies this
      ensures Valid() && renewed == old(renewed)
      ensures a == AnswerTo(given, |old(trace)|)
      ensures trace == old(trace) + [event(a)] && world == Apply(b, old(world), event(a))
      ensures cancelled == (old(cancelled) || a.cancels)
      ensures good == (old(good) && Good(b, event(a)))
      ensures |script| <= |old(script)| && (a.ok ==> |script| < |old(script)|)
    {
      hide Legal, WorldAfter, MayFollow, Answered, Good, Apply, Answers, AllGood, CancelledWithin;
      if script == [] {
        a := NO_ANSWER;
      } else {
        a := script[0];
        script := script[1..];
      }
      cancelled := cancelled || a.cancels;
      LegalExtends(b, trace, event(a));
      StillScripted(b, given, trace, renewed, old(cancelled), good, event(a));
      good := good && Good(b, event(a));
      world := Apply(b, world, event(a));
      trace := trace + [event(a)];
    }

    /** The context of the cleanup, which nothing has cancelled yet. */
    method RenewContext()
      requires Valid()
      modifies this`cancelled, this`renewed
      ensures Valid() && !cancelled && renewed == |trace|
    {
      hide Legal, WorldAfter, Answers, AllGood;
      cancelled := false;
      renewed := |trace|;
    }

    /** A request that starts a task. */
    method Begin(op: Op) returns (ok: bool)
      requires Valid() && MayStart(b, trace, world, op)
      modifies this
      ensures Valid() && After(old(trace), old(cancelled), old(renewed), 1)
      ensures trace == old(trace) + [Begun(op, ok)] && world == old(world)
      ensures good == (old(good) && ok)
    {
      hide Legal, WorldAfter, MayStart, Scripted;
      var a := Call((a: Answer) => Begun(op, a.ok));
      return a.ok;
    }

    method WaitTask(op: Op) returns (ok: bool)
      requires Valid() && trace != [] && trace[|trace| - 1] == Begun(op, true)
      modifies this
      ensures Valid() && After(old(trace), old(cancelled), old(renewed), 1)
      ensures trace == old(trace) + [Waited(op, ok)]
      ensures world == if ok then Effect(old(world), op) else old(world)
      ensures good == (old(good) && ok)
    {
      hide Legal, WorldAfter, Effect, Scripted;
      var a := Call((a: Answer) => Waited(op, a.ok));
      return a.ok;
    }

    /** The request and the wait, as every caller pairs them. */
    method Perform(op: Op) returns (ok: bool)
      requires Valid() && MayStart(b, trace, world, op)
      modifies this
      ensures Valid() && After(old(trace), old(cancelled), old(renewed), 2)
      ensures world == if ok then Effect(old(world), op) else old(world)
      ensures ok ==> trace == old(trace) + Done(op)
      ensures !ok ==> trace == old(trace) + [Begun(op, false)]
                      || trace == old(trace) + [Begun(op, true), Waited(op, false)]
      ensures ok <==> AllOk(trace[|old(trace)|..])
      ensures good == (old(good) && ok)
    {
      hide Legal, WorldAfter, MayStart, Effect, Scripted;
      ok := Begin(op);
      if ok {
        ok := WaitTask(op);
        assert trace == old(trace) + [Begun(op, true), Waited(op, ok)];
        assert trace[|old(trace)|..] == [Begun(op, true), Waited(op, ok)];
      } else {
        assert trace[|old(trace)|..] == [Begun(op, false)];
      }
      ghost var tail := trace[|old(trace)|..];
      assert !ok ==> !tail[|tail| - 1].ok;
    }

    method StorageStatus(storage: string) returns (accepted: bool)
      requires Valid() && (storage == b.plan.isoStorage || storage == b.plan.diskStorage)
      modifies this
      ensures Valid() && After(old(trace), old(cancelled), old(renewed), 1)
      ensures world == if accepted then old(world).(accepted := old(world.accepted) + {storage}) else old(world)
      ensures good == (old(good) && accepted)
    {
      hide Legal, WorldAfter, Scripted, StorageAccepted;
      var a := Call((a: Answer) => StorageChecked(storage, if a.ok then Some(a.storage) else None));
      return StorageAccepted(b, storage, if a.ok then Some(a.storage) else None);
    }

    method StorageVolumeExists() returns (ok: bool, found: bool)
      requires Valid()
      modifies this
      ensures Valid() && After(old(trace), old(cancelled), old(renewed), 1)
      ensures world == if ok && !found then old(world).(absent := old(world.absent) + {ISOVolume(b)}) else old(world)
      ensures good == (old(good) && ok && !found)
    {
      hide Legal, WorldAfter, Scripted, ISOVolume;
      var a := Call((a: Answer) => VolumeChecked(ISOVolume(b), a.ok, a.found));
      return a.ok, a.found;
    }

    method UploadFile() returns (ok: bool, volume: string)
      requires Valid()
      requires world.ready == {NodeKnown, TargetFree, ImageMade}
      requires b.plan.isoStorage in world.accepted && b.plan.diskStorage in world.accepted
      requires ISOVolume(b) in world.absent && world.volumes == {} && world.deletions == 0 && world.vms == map[]
      modifies this
      ensures Valid() && After(old(trace), old(cancelled), old(renewed), 1)
      ensures volume != ""
      ensures world == if ok then old(world).(volumes := {volume}) else old(world)
      ensures good == (old(good) && ok)
    {
      hide Legal, WorldAfter, TrimSpace, ISOVolume, Scripted;
      var a := Call((a: Answer) => Uploaded(UploadedName(b, a), a.ok));
      ISOVolumeIsNotBlank(b);
      NotBlank(ISOVolume(b));
      NotBlank(a.text);
      return a.ok, UploadedName(b, a);
    }

    method CurrentVMStatus(vmid: int) returns (ok: bool, status: string)
      requires Valid() && MayPoll(trace, cancelled)
      modifies this
      ensures Valid() && After(old(trace), old(cancelled), old(renewed), 1)
      ensures ok ==> |script| < |old(script)|
      ensures ok == AnswerTo(given, |old(trace)|).ok && status == AnswerTo(given, |old(trace)|).text
      ensures trace == old(trace) + [StatusRead(vmid, ok, status, old(cancelled))]
      ensures world == Apply(b, old(world), StatusRead(vmid, ok, status, old(cancelled)))
      ensures good == (old(good) && ok)
    {
      hide Legal, WorldAfter, Scripted, Apply;
      var late := cancelled;
      var a := Call((a: Answer) => StatusRead(vmid, a.ok, a.text, late));
      return a.ok, a.text;
    }
  }

  // ---------------------------------------------------------------- runs that meet no trouble

  /** An answer that every call can go on from. */
  predicate GoodAnswer(b: Build, a: Answer) {
    && a.ok && !a.cancels
    && !TargetTaken(b, a.vms)
    && StorageAccepted(b, b.plan.isoStorage, Some(a.storage))
    && StorageAccepted(b, b.plan.diskStorage, Some(a.storage))
    && !a.found
    && a.number > 0
    && a.text == "stopped"
  }

  ghost predicate GoodScript(b: Build, script: seq<Answer>) {
    forall k :: 0 <= k < |script| ==> GoodAnswer(b, script[k])
  }

  lemma GoodAnswersGoOn(b: Build, given: seq<Answer>, trace: seq<Event>, renewed: nat, cancelled: bool, good: bool)
    requires GoodScript(b, given) && |trace| <= |given|
    requires Legal(b, trace) && Scripted(b, given, Rest(given, |trace|), trace, renewed, cancelled, good)
    ensures good && !cancelled
  {
    hide StorageAccepted, WorldAfter, TargetTaken;
    forall k | 0 <= k < |trace|
      ensures Good(b, trace[k])
    {
      assert MayFollow(b, trace[..k], trace[k]);
      assert Answered(b, trace[k], given[k]) && GoodAnswer(b, given[k]);
    }
  }

  // ---------------------------------------------------------------- the build

  lemma LaterNotOk(a: seq<Event>, b: seq<Event>, c: seq<Event>)
    requires a <= b <= c
    ensures AllOk(c[|a|..]) ==> AllOk(c[|b|..])
  {
    assert forall k :: 0 <= k < |c| - |b| ==> c[|b|..][k] == c[|a|..][k + |b| - |a|];
  }

  lemma EarlierNotOk(a: seq<Event>, b: seq<Event>, c: seq<Event>)
    requires a <= b <= c
    ensures AllOk(c[|a|..]) ==> AllOk(b[|a|..])
  {
    assert forall k :: 0 <= k < |b| - |a| ==> b[|a|..][k] == c[|a|..][k];
  }

  lemma StillCreates(a: seq<Event>, b: seq<Event>)
    requires a <= b && Creates(a)
    ensures Creates(b)
  {
    var k :| 0 <= k < |a| && a[k].Begun? && a[k].op.CreateVM? && a[k].ok;
    assert b[k] == a[k];
  }

  lemma BadDelete(a: seq<Event>, b: seq<Event>, volume: string)
    requires b == a + [Begun(DeleteVolume(volume), false)]
             || b == a + [Begun(DeleteVolume(volume), true), Waited(DeleteVolume(volume), false)]
    ensures !DeletesOk(b)
  {
    assert !b[|b| - 1].ok && b[|b| - 1].op.DeleteVolume?;
  }

  /** A step that is possible fails only with a call; one that is not makes no call. */
  predicate Outcome(possible: bool, ok: bool, wasGood: bool, good: bool) {
    if possible then good == (wasGood && ok) else !ok && good == wasGood
  }

  lemma AnyVolume(b: Build, volume: string)
    ensures CreateValues(b, volume).Some? <==> CreateValues(b, "").Some?
  {
    hide AllocationGiB, TrimSpace;
  }

  lemma BuildableMeans(b: Build)
    ensures Buildable(b) <==> RequirementsOf(b.plan).Some? && CreateValues(b, "").Some? && Configured(b)
  {
    hide AllocationGiB, TrimSpace, Collected;
  }

  lemma GoodText(b: Build, given: seq<Answer>, k: nat)
    requires GoodScript(b, given) && AnswerTo(given, k).ok
    ensures AnswerTo(given, k).text == "stopped"
  {
  }

  /** The calls of a build that meets no trouble. */
  function CallsNeeded(b: Build): nat {
    |b.storageOrder| + 21
  }

  class BuildState {
    const b: Build
    const client: Client
    var vmid: int
    var vmCreated: bool
    var tempISOVolumeID: string
    var tempISODeleted: bool
    var completed: bool

    constructor (client: Client)
      ensures this.client == client && this.b == client.b
      ensures vmid == 0 && !vmCreated && tempISOVolumeID == "" && !tempISODeleted && !completed
    {
      this.b := client.b;
      this.client := client;
      vmid, vmCreated, completed := 0, false, false;
      tempISOVolumeID, tempISODeleted := "", false;
    }

    ghost function Volumes(): set<string>
      reads this
    {
      if tempISOVolumeID == "" || tempISODeleted then {} else {tempISOVolumeID}
    }

    /** The record of what to clean up agrees with what the run has made. */
    ghost predicate Valid()
      reads this, client
    {
      && client.b == b && WellFormed(b) && client.Valid()
      && client.world.volumes == Volumes()
      && (tempISODeleted ==> tempISOVolumeID != "")
      && (if vmCreated then vmid > 0 && client.world.vms.Keys == {vmid} else client.world.vms == map[])
    }

    ghost predicate HasVM(created: Config, changes: seq<Change>, stage: Stage, template: bool)
      reads this, client
    {
      vmCreated && client.world.vms == map[vmid := VM(created, changes, stage, template)]
    }

    /** deleteTemporaryISO; true is a nil error. */
    method DeleteTemporaryISO() returns (ok: bool)
      requires Valid()
      modifies this`tempISODeleted, client
      ensures Valid() && client.world.vms == old(client.world.vms)
      ensures client.After(old(client.trace), old(client.cancelled), old(client.renewed), 2)
      ensures ok ==> client.world.volumes == {}
      ensures ok ==> client.trace == old(client.trace) +
                     (if old(Volumes()) == {} then [] else Done(DeleteVolume(tempISOVolumeID)))
      ensures ok ==> client.world.deletions == old(client.world.deletions) + |old(Volumes())|
      ensures !ok ==> !AllOk(client.trace[|old(client.trace)|..]) && !DeletesOk(client.trace)
      ensures client.good == (old(client.good) && ok)
    {
      hide Legal, WorldAfter, WellFormed, AllOk, Scripted, DeletesOk;
      if tempISOVolumeID == "" || tempISODeleted {
        return true;
      }
      ok := client.Perform(DeleteVolume(tempISOVolumeID));
      if !ok {
        BadDelete(old(client.trace), client.trace, tempISOVolumeID);
        return false;
      }
      tempISODeleted := true;
    }

    /** uploadTemporaryInstallerISO, recorded in the state */
    method UploadTemporaryInstallerISO() returns (ok: bool)
      requires Valid() && tempISOVolumeID == "" && !vmCreated
      requires client.world.ready == {NodeKnown, TargetFree, ImageMade}
      requires b.plan.isoStorage in client.world.accepted && b.plan.diskStorage in client.world.accepted
      requires client.world.deletions == 0
      modifies this`tempISOVolumeID, client
      ensures Valid() && client.world.vms == map[]
      ensures client.world.deletions == old(client.world.deletions)
      ensures client.After(old(client.trace), old(client.cancelled), old(client.renewed), 2)
      ensures if ok then client.world.volumes == {tempISOVolumeID} else client.world.volumes == {}
      ensures client.good == (old(client.good) && ok)
    {
      hide Legal, WorldAfter, WellFormed, Scripted;
      var found;
      ok, found := client.StorageVolumeExists();
      if !ok || found {
        return false;
      }
      var volume;
      ok, volume := client.UploadFile();
      if ok {
        tempISOVolumeID := volume;
      }
    }

    /** preflightBuildStorages: every storage of the plan is asked for and must be accepted. */
    method PreflightStorages() returns (ok: bool)
      requires Valid() && tempISOVolumeID == "" && !vmCreated
      modifies client
      ensures Valid() && client.world.vms == map[]
      ensures client.world.deletions == old(client.world.deletions) && client.world.ready == old(client.world.ready)
      ensures client.After(old(client.trace), old(client.cancelled), old(client.renewed), |b.storageOrder|)
      ensures ok ==> b.plan.isoStorage in client.world.accepted && b.plan.diskStorage in client.world.accepted
      ensures Outcome(RequirementsOf(b.plan).Some?, ok, old(client.good), client.good)
    {
      hide Legal, WorldAfter, RequirementsOf, Scripted;
      if RequirementsOf(b.plan).None? {
        return false;
      }
      for k := 0 to |b.storageOrder|
        invariant Valid() && client.world.deletions == old(client.world.deletions)
        invariant client.world.ready == old(client.world.ready) && client.good == old(client.good)
        invariant client.After(old(client.trace), old(client.cancelled), old(client.renewed), k)
        invariant forall i :: 0 <= i < k ==> b.storageOrder[i] in client.world.accepted
      {
        assert b.storageOrder[k] in b.storageOrder;
        var accepted := client.StorageStatus(b.storageOrder[k]);
        if !accepted {
          return false;
        }
      }
      assert b.plan.isoStorage in b.storageOrder && b.plan.diskStorage in b.storageOrder;
      return true;
    }

    /** selectVMID */
    method SelectVMID() returns (ok: bool, id: int)
      requires Valid() && b.requestedVMID >= 0
      modifies client
      ensures Valid() && client.world == old(client.world).(offered := client.world.offered)
      ensures client.After(old(client.trace), old(client.cancelled), old(client.renewed), 1)
      ensures ok ==> MayUse(b, client.world, id)
      ensures client.good == (old(client.good) && ok)
    {
      hide Legal, WorldAfter, WellFormed, Scripted;
      if b.requestedVMID > 0 {
        return true, b.requestedVMID;
      }
      var a := client.Call((a: Answer) => IDAllocated(a.ok, a.number));
      return a.ok && a.number > 0, a.number;
    }

    /** CreateVM and the wait for it; the machine is recorded only once its task succeeded. */
    method CreateAndWait(config: Config) returns (accepted: bool, ok: bool)
      requires Valid() && !vmCreated && MayUse(b, client.world, vmid)
      requires tempISOVolumeID in client.world.volumes && CreateValues(b, tempISOVolumeID) == Some(config)
      modifies this`vmCreated, client
      ensures Valid() && client.world.volumes == old(client.world.volumes)
      ensures client.world.deletions == old(client.world.deletions)
      ensures client.After(old(client.trace), old(client.cancelled), old(client.renewed), 2)
      ensures ok ==> accepted && HasVM(config, [], Created, false)
      ensures !ok ==> !vmCreated
      ensures accepted ==> Creates(client.trace)
      ensures client.good == (old(client.good) && ok)
    {
      hide Legal, WorldAfter, WellFormed, Scripted, CreateValues;
      var op := CreateVM(vmid, config);
      ok := client.Begin(op);
      accepted := ok;
      if ok {
        assert client.trace[|client.trace| - 1] == Begun(op, true) && Creates(client.trace);
        label begun:
        ok := client.WaitTask(op);
        StillCreates(old@begun(client.trace), client.trace);
        vmCreated := ok;
      }
    }

    /** The polling loop of powerOnAndWaitForInstaller. */
    method WaitForInstaller(config: Config) returns (ok: bool)
      requires Valid() && HasVM(config, [], Running, false) && MayPoll(client.trace, true)
      modifies client
      ensures Valid() && client.world.volumes == old(client.world.volumes)
      ensures client.world.deletions == old(client.world.deletions)
      ensures client.After(old(client.trace), old(client.cancelled), old(client.renewed), |client.trace|)
      ensures GoodScript(b, client.given) ==> |client.trace| <= |old(client.trace)| + 1
      ensures ok ==> HasVM(config, [], Stopped, false) && client.good == old(client.good)
      ensures !ok && client.good ==> client.cancelled && EndsWaiting(client.trace)
    {
      hide Legal, WorldAfter, WellFormed, Scripted, GoodScript;
      while true
        invariant Valid() && HasVM(config, [], Running, false) && MayPoll(client.trace, client.cancelled)
        invariant client.world.volumes == old(client.world.volumes)
        invariant client.world.deletions == old(client.world.deletions)
        invariant client.After(old(client.trace), old(client.cancelled), old(client.renewed), |client.trace|)
        invariant GoodScript(b, client.given) ==> |client.trace| == |old(client.trace)|
        invariant client.good == old(client.good)
        decreases |client.script|
      {
        if GoodScript(b, client.given) && AnswerTo(client.given, |client.trace|).ok {
          GoodText(b, client.given, |client.trace|);
        }
        var status;
        ok, status := client.CurrentVMStatus(vmid);
        if !ok {
          return false;
        }
        if status == "stopped" {
          return true;
        }
        if client.cancelled {
          return false;
        }
      }
    }

    /** powerOnAndWaitForInstaller */
    method PowerOnAndWait(config: Config) returns (ok: bool)
      requires Valid() && HasVM(config, [], Created, false)
      modifies client
      ensures Valid() && client.world.volumes == old(client.world.volumes)
      ensures client.world.deletions == old(client.world.deletions)
      ensures client.After(old(client.trace), old(client.cancelled), old(client.renewed), |client.trace|)
      ensures GoodScript(b, client.given) ==> |client.trace| <= |old(client.trace)| + 3
      ensures ok ==> HasVM(config, [], Stopped, false) && client.good == old(client.good)
      ensures !ok && client.good ==> client.cancelled && EndsWaiting(client.trace)
    {
      hide Legal, WorldAfter, WellFormed, Scripted, GoodScript, EndsWaiting;
      ok := client.Perform(StartVM(vmid));
      if !ok {
        return;
      }
      ok := WaitForInstaller(config);
    }

    /** One configuration update and its wait. */
    method Update(change: Change, created: Config, done: seq<Change>) returns (ok: bool)
      requires Valid() && HasVM(created, done, Stopped, false)
      requires MayBegin(b, client.world, UpdateVM(vmid, change))
      modifies client
      ensures Valid() && client.world.volumes == old(client.world.volumes)
      ensures client.world.deletions == old(client.world.deletions)
      ensures client.After(old(client.trace), old(client.cancelled), old(client.renewed), 2)
      ensures ok ==> HasVM(created, done + [change], Stopped, false)
      ensures client.good == (old(client.good) && ok)
    {
      hide Legal, WorldAfter, WellFormed, Scripted, FinalizeChange, CloudInitChange;
      ok := client.Perform(UpdateVM(vmid, change));
    }

    /** finalizePostInstallConfig */
    method Finalize(created: Config) returns (ok: bool)
      requires Valid() && HasVM(created, [], Stopped, false)
      modifies client
      ensures Valid() && client.world.volumes == old(client.world.volumes)
      ensures client.world.deletions == old(client.world.deletions)
      ensures client.After(old(client.trace), old(client.cancelled), old(client.renewed), 2)
      ensures ok ==> HasVM(created, [FinalizeChange(b)], Stopped, false)
      ensures Outcome(b.hardwareValid, ok, old(client.good), client.good)
    {
      hide Legal, WorldAfter, WellFormed, Scripted, FinalizeChange, CloudInitChange;
      if !b.hardwareValid {
        return false;
      }
      ok := Update(FinalizeChange(b), created, []);
      assert [] + [FinalizeChange(b)] == [FinalizeChange(b)];
    }

    /** applyCloudInitOptions */
    method ApplyCloudInitOptions(created: Config) returns (ok: bool)
      requires Valid() && HasVM(created, [FinalizeChange(b)], Stopped, false)
      modifies client
      ensures Valid() && client.world.volumes == old(client.world.volumes)
      ensures client.world.deletions == old(client.world.deletions)
      ensures client.After(old(client.trace), old(client.cancelled), old(client.renewed), 2)
      ensures ok ==> HasVM(created, CloudInitSteps(b), Stopped, false)
      ensures Outcome(b.cloudInitEnabled ==> b.cloudInitValid, ok, old(client.good), client.good)
    {
      hide Legal, WorldAfter, WellFormed, Scripted, FinalizeChange, CloudInitChange;
      if !b.cloudInitEnabled {
        assert CloudInitSteps(b) == [FinalizeChange(b)];
        return true;
      }
      if !b.cloudInitValid {
        return false;
      }
      ok := Update(CloudInitChange(b), created, [FinalizeChange(b)]);
    }

    /** applyVMOptions; an empty set of options needs no call. */
    method ApplyVMOptions(created: Config) returns (ok: bool)
      requires Valid() && HasVM(created, CloudInitSteps(b), Stopped, false)
      modifies client
      ensures Valid() && client.world.volumes == old(client.world.volumes)
      ensures client.world.deletions == old(client.world.deletions)
      ensures client.After(old(client.trace), old(client.cancelled), old(client.renewed), 2)
      ensures ok ==> HasVM(created, AllSteps(b), Stopped, false)
      ensures Outcome(b.optionsEnabled ==> b.optionsValid, ok, old(client.good), client.good)
    {
      hide Legal, WorldAfter, WellFormed, Scripted, CloudInitSteps;
      assert !HasOptions(b) ==> AllSteps(b) == CloudInitSteps(b);
      if !b.optionsEnabled {
        return true;
      }
      if !b.optionsValid {
        return false;
      }
      if |b.options| == 0 {
        return true;
      }
      ok := Update(OptionsChange(b), created, CloudInitSteps(b));
    }

    /** maybeConvertToTemplate */
    method MaybeConvertToTemplate(created: Config) returns (ok: bool)
      requires Valid() && HasVM(created, AllSteps(b), Stopped, false)
      modifies client
      ensures Valid() && client.world.volumes == old(client.world.volumes)
      ensures client.world.deletions == old(client.world.deletions)
      ensures client.After(old(client.trace), old(client.cancelled), old(client.renewed), 2)
      ensures ok ==> HasVM(created, AllSteps(b), Stopped, b.output.Template?)
      ensures client.good == (old(client.good) && ok)
    {
      hide Legal, WorldAfter, WellFormed, Scripted, AllSteps;
      if b.output.VirtualMachine? {
        return true;
      }
      ok := client.Perform(TemplateVM(vmid));
    }

    /** What a build that returns nil leaves behind. */
    ghost predicate Succeeded()
      reads this, client
    {
      && completed
      && client.world.volumes == {} && client.world.deletions == 1
      && exists volume, created ::
           && CreateValues(b, volume) == Some(created)
           && HasVM(created, AllSteps(b), Stopped, b.output.Template?)
    }

    /** The changes to a machine that was seen stopped, and its conversion. */
    method FinishMachine(created: Config) returns (ok: bool)
      requires Valid() && HasVM(created, [], Stopped, false)
      modifies client
      ensures Valid() && client.world.volumes == old(client.world.volumes)
      ensures client.world.deletions == old(client.world.deletions)
      ensures client.After(old(client.trace), old(client.cancelled), old(client.renewed), 8)
      ensures ok ==> HasVM(created, AllSteps(b), Stopped, b.output.Template?)
      ensures ok ==> Configured(b) && client.good == old(client.good)
      ensures !ok && Configured(b) ==> !client.good
    {
      hide Legal, WorldAfter, WellFormed, Scripted, AllSteps, CloudInitSteps, FinalizeChange;
      ok := Finalize(created);
      if !ok {
        return false;
      }
      ok := ApplyCloudInitOptions(created);
      if !ok {
        return false;
      }
      ok := ApplyVMOptions(created);
      if !ok {
        return false;
      }
      ok := MaybeConvertToTemplate(created);
    }

    /** The part of installWithClient that owns a created machine. */
    method InstallCreated(created: Config) returns (ok: bool)
      requires Valid() && HasVM(created, [], Created, false) && !completed && !tempISODeleted
      requires client.world.volumes == {tempISOVolumeID} && client.world.deletions == 0
      requires CreateValues(b, tempISOVolumeID) == Some(created)
      modifies this, client
      ensures Valid()
      ensures client.After(old(client.trace), old(client.cancelled), old(client.renewed), |client.trace|)
      ensures GoodScript(b, client.given) ==> |client.trace| <= |old(client.trace)| + 13
      ensures ok <==> completed
      ensures ok ==> Succeeded() && Configured(b) && client.good == old(client.good)
      ensures !ok && Configured(b) && client.good ==> client.cancelled && EndsWaiting(client.trace)
    {
      hide Legal, WorldAfter, WellFormed, Scripted, CreateValues, AllSteps, CloudInitSteps, FinalizeChange, GoodScript,
           EndsWaiting;
      ok := PowerOnAndWait(created);
      if !ok {
        return false;
      }
      ok := FinishMachine(created);
      if !ok {
        return false;
      }
      ok := DeleteTemporaryISO();
      if !ok {
        return false;
      }
      completed := true;
      assert HasVM(created, AllSteps(b), Stopped, b.output.Template?);
    }

    /** The part of installWithClient that owns an uploaded image. */
    method InstallUploaded() returns (ok: bool)
      requires Valid() && !vmCreated && !completed && !tempISODeleted && b.requestedVMID >= 0
      requires client.world.volumes == {tempISOVolumeID} && client.world.deletions == 0
      modifies this, client
      ensures Valid()
      ensures client.After(old(client.trace), old(client.cancelled), old(client.renewed), |client.trace|)
      ensures GoodScript(b, client.given) ==> |client.trace| <= |old(client.trace)| + 16
      ensures ok <==> completed
      ensures ok ==> Succeeded() && Configured(b) && CreateValues(b, "").Some? && client.good == old(client.good)
      ensures !ok && Configured(b) && CreateValues(b, "").Some? && client.good ==>
                client.cancelled && EndsWaiting(client.trace)
      ensures !ok && !Creates(client.trace) && DeletesOk(client.trace) ==> client.world.volumes == {}
    {
      hide Legal, WorldAfter, WellFormed, Scripted, CreateValues, AllSteps, CloudInitSteps, FinalizeChange, GoodScript, Creates,
           DeletesOk, EndsWaiting, Succeeded;
      var id;
      ok, id := SelectVMID();
      if !ok {
        var _ := DeleteTemporaryISO();
        return false;
      }
      vmid := id;
      var values := CreateValues(b, tempISOVolumeID);
      AnyVolume(b, tempISOVolumeID);
      if values.None? {
        var _ := DeleteTemporaryISO();
        return false;
      }
      var accepted;
      accepted, ok := CreateAndWait(values.value);
      if !ok {
        if !accepted {
          var _ := DeleteTemporaryISO();
        }
        return false;
      }
      label created:
      ok := InstallCreated(values.value);
      StillCreates(old@created(client.trace), client.trace);
    }

    /** The checks before anything is made. */
    method CheckTarget() returns (ok: bool)
      requires Valid() && client.world == EMPTY_WORLD
      modifies client
      ensures Valid() && client.After(old(client.trace), old(client.cancelled), old(client.renewed), 3)
      ensures ok ==> client.world == EMPTY_WORLD.(ready := {NodeKnown, TargetFree, ImageMade})
      ensures client.world == EMPTY_WORLD.(ready := client.world.ready)
      ensures client.good == (old(client.good) && ok)
    {
      hide Legal, WorldAfter, WellFormed, Scripted, TargetTaken;
      var a := client.Call((a: Answer) => NodeValidated(a.ok));
      if !a.ok {
        return false;
      }
      a := client.Call((a: Answer) => Listed(a.ok, a.vms));
      if !a.ok || TargetTaken(b, a.vms) {
        return false;
      }
      a := client.Call((a: Answer) => ISOCreated(a.ok));
      return a.ok;
    }

    /** The part of installWithClient that owns nothing yet, up to the upload. */
    method PrepareImage() returns (ok: bool)
      requires Valid() && !vmCreated && tempISOVolumeID == "" && client.world == EMPTY_WORLD && client.good
      modifies this`tempISOVolumeID, client
      ensures Valid() && client.world.deletions == 0
      ensures client.After(old(client.trace), old(client.cancelled), old(client.renewed), |b.storageOrder| + 5)
      ensures client.world.volumes == if ok then {tempISOVolumeID} else {}
      ensures ok ==> RequirementsOf(b.plan).Some? && client.good
      ensures !ok && RequirementsOf(b.plan).Some? ==> !client.good
    {
      hide Legal, WorldAfter, WellFormed, Scripted, TargetTaken, RequirementsOf;
      ok := CheckTarget();
      if !ok {
        return false;
      }
      ok := PreflightStorages();
      if !ok {
        return false;
      }
      ok := UploadTemporaryInstallerISO();
    }

    /** installWithClient up to its deferred cleanup; true is a nil error. A failure is that of some
        call, of the configuration, or of a wait that was cancelled. */
    method Install() returns (ok: bool)
      requires Valid() && !vmCreated && tempISOVolumeID == "" && !completed
      requires client.world == EMPTY_WORLD && client.trace == [] && client.good
      modifies this, client
      ensures Valid() && client.renewed == old(client.renewed)
      ensures GoodScript(b, client.given) ==> |client.trace| <= CallsNeeded(b)
      ensures ok <==> completed
      ensures ok ==> Succeeded() && FieldsValid(b) && Buildable(b) && client.good
      ensures !ok && FieldsValid(b) && Buildable(b) && client.good ==> client.cancelled && EndsWaiting(client.trace)
      ensures !FieldsValid(b) ==> client.trace == []
      ensures !ok && !Creates(client.trace) && DeletesOk(client.trace) ==> client.world.volumes == {}
    {
      hide Legal, WorldAfter, WellFormed, Scripted, Succeeded, HasVM, GoodScript, Creates, DeletesOk, EndsWaiting,
           Buildable, Configured, CreateValues, RequirementsOf, TrimSpace;
      if !FieldsValid(b) {
        return false;
      }
      BuildableMeans(b);
      ok := PrepareImage();
      if !ok {
        return false;
      }
      ok := InstallUploaded();
    }

    /** destroyInterruptedVM; a machine seen running is stopped first. */
    method DestroyInterruptedVM() returns (ok: bool)
      requires Valid() && vmCreated && !client.cancelled
      modifies client
      ensures client.Valid() && client.world.volumes == old(client.world.volumes)
      ensures old(client.trace) <= client.trace && client.renewed == old(client.renewed)
      ensures ok ==> client.world.vms == map[]
      ensures !ok ==> client.world.vms.Keys == {vmid} && !AllOk(client.trace[|old(client.trace)|..])
    {
      hide Legal, WorldAfter, WellFormed, Scripted, AllOk;
      var read, power := client.CurrentVMStatus(vmid);
      if read && power != "" && power != "stopped" {
        label stop:
        ok := client.Perform(StopVM(vmid));
        if !ok {
          LaterNotOk(old(client.trace), old@stop(client.trace), client.trace);
          return false;
        }
      }
      label destroy:
      ok := client.Perform(DeleteVM(vmid));
      if !ok {
        LaterNotOk(old(client.trace), old@destroy(client.trace), client.trace);
      }
    }

    /** cleanupInterruptedBuild */
    method CleanupInterruptedBuild()
      requires Valid() && !completed
      modifies this, client
      ensures Valid() && !completed
      ensures old(client.trace) <= client.trace
      ensures AllOk(client.trace[|old(client.trace)|..]) ==>
                client.world.volumes == {} && client.world.vms == map[]
    {
      hide Legal, WorldAfter, WellFormed, Scripted, AllOk;
      client.RenewContext();
      if vmCreated {
        var destroyed := DestroyInterruptedVM();
        if destroyed {
          vmCreated := false;
        }
      }
      label image:
      if tempISOVolumeID != "" && !tempISODeleted {
        var deleted := DeleteTemporaryISO();
        LaterNotOk(old(client.trace), old@image(client.trace), client.trace);
        EarlierNotOk(old(client.trace), old@image(client.trace), client.trace);
      }
    }
  }

  // ---------------------------------------------------------------- whole runs

  /** Exactly one machine, configured as asked, stopped, a template if asked for; the image
      deleted once and for all. */
  ghost predicate SuccessfulWorld(b: Build, w: World) {
    && w.volumes == {} && w.deletions == 1
    && exists vmid, volume, created ::
         && CreateValues(b, volume) == Some(created)
         && w.vms == map[vmid := VM(created, AllSteps(b), Stopped, b.output.Template?)]
  }

  lemma NotYetCancelled(script: seq<Answer>)
    ensures !CancelledWithin(script, 0, 0)
  {
  }

  /** One call of installWithClient, with its deferred cleanup. For every script of answers, and
      so for every failing call and every moment of cancellation:
      the calls are Legal, and each has the answer that the script gives it;
      success leaves the finished machine, no image, and runs no cleanup;
      the build succeeds exactly when its configuration is complete and it can go on from every
      answer, unless a cancellation ended its wait for the installer, so a long enough script of good
      answers succeeds, and without the required fields nothing is called;
      a build that fails before a machine was asked for deletes its image;
      and after a cancellation whose cleanup calls all succeed nothing that the run made is left. */
  method Run(b: Build, script: seq<Answer>)
    returns (ok: bool, cancelled: bool, trace: seq<Event>, cleanup: seq<Event>)
    requires WellFormed(b)
    ensures Legal(b, trace + cleanup) && Answers(b, trace + cleanup, script)
    ensures cancelled <==> CancelledWithin(script, 0, |trace|)
    ensures ok ==> cleanup == [] && SuccessfulWorld(b, WorldAfter(b, trace))
    ensures ok ==> FieldsValid(b) && Buildable(b) && AllGood(b, trace)
    ensures !ok && FieldsValid(b) && Buildable(b) && AllGood(b, trace) ==> cancelled && EndsWaiting(trace)
    ensures FieldsValid(b) && Buildable(b) && GoodScript(b, script) && |script| >= CallsNeeded(b) ==> ok
    ensures !FieldsValid(b) ==> !ok && trace == [] && cleanup == []
    ensures !ok && !Creates(trace) && DeletesOk(trace) ==> WorldAfter(b, trace).volumes == {}
    ensures !cancelled ==> cleanup == []
    ensures !ok && cancelled && AllOk(cleanup) ==>
              var w := WorldAfter(b, trace + cleanup);
              w.volumes == {} && w.vms == map[]
  {
    hide Legal, WorldAfter, WellFormed, AllOk, FieldsValid, Buildable, Answers, AllGood, CancelledWithin, GoodScript,
         Creates, DeletesOk, EndsWaiting;
    var client := new Client(b, script);
    var state := new BuildState(client);
    ok := state.Install();
    cancelled := client.cancelled;
    trace, cleanup := client.trace, [];
    assert trace + [] == trace;
    if GoodScript(b, script) && |trace| <= |script| {
      GoodAnswersGoOn(b, script, trace, 0, cancelled, client.good);
    }
    if trace == [] {
      NotYetCancelled(script);
    }
    if cancelled && !state.completed {
      state.CleanupInterruptedBuild();
      cleanup := client.trace[|trace|..];
      assert trace + cleanup == client.trace;
    }
  }
}
