/** The check that a custom storage configuration defines a bootable EFI System Partition: four
    maps filled in one pass and joined afterwards. */
module UefiStorage {
  import opened Lists

  /** The scalar fields of one storage action, trimmed and in lower case; "" where absent. */
  datatype Action = Action(
    id: string, kind: string,
    ptable: string, device: string, flag: string, volume: string, fstype: string, path: string)

  predicate IsFAT(fstype: string) {
    fstype == "fat" || fstype == "fat16" || fstype == "fat32" || fstype == "vfat"
  }

  predicate IsGPTDisk(a: Action) {
    a.kind == "disk" && a.id != "" && a.ptable == "gpt"
  }

  predicate IsBootPartition(a: Action) {
    a.kind == "partition" && a.id != "" && a.device != "" && a.flag == "boot"
  }

  predicate IsFATFormat(a: Action) {
    a.kind == "format" && a.id != "" && a.volume != "" && IsFAT(a.fstype)
  }

  predicate IsEFIMount(a: Action) {
    a.kind == "mount" && a.device != "" && a.path == "/boot/efi"
  }

  /** The four maps of the check; a set stands for a map to true. */
  datatype Found = Found(
    disks: set<string>,
    partitions: map<string, string>,
    formats: map<string, string>,
    mounts: set<string>)

  function Note(found: Found, a: Action): Found {
    if IsGPTDisk(a) then found.(disks := found.disks + {a.id})
    else if IsBootPartition(a) then found.(partitions := found.partitions[a.id := a.device])
    else if IsFATFormat(a) then found.(formats := found.formats[a.volume := a.id])
    else if IsEFIMount(a) then found.(mounts := found.mounts + {a.device})
    else found
  }

  function Collect(actions: seq<Action>): Found {
    if actions == [] then Found({}, map[], map[], {})
    else Note(Collect(actions[..|actions| - 1]), actions[|actions| - 1])
  }

  predicate Bootable(found: Found, partition: string)
    requires partition in found.partitions
  {
    && found.partitions[partition] in found.disks
    && partition in found.formats && found.formats[partition] != ""
    && (found.formats[partition] in found.mounts || partition in found.mounts)
  }

  predicate HasESP(found: Found) {
    exists p :: p in found.partitions && Bootable(found, p)
  }

  /** storageConfigHasUEFIESP; the second loop visits the partitions in any order. */
  method StorageHasESP(actions: seq<Action>) returns (result: bool)
    ensures result == HasESP(Collect(actions))
  {
    var disks: set<string>, mounts: set<string> := {}, {};
    var partitions: map<string, string>, formats: map<string, string> := map[], map[];
    assert actions[..0] == [];
    for k := 0 to |actions|
      invariant Found(disks, partitions, formats, mounts) == Collect(actions[..k])
    {
      var a := actions[k];
      assert actions[..k + 1][..k] == actions[..k];
      if a.kind == "disk" {
        if a.id != "" && a.ptable == "gpt" {
          disks := disks + {a.id};
        }
      } else if a.kind == "partition" {
        if a.id != "" && a.device != "" && a.flag == "boot" {
          partitions := partitions[a.id := a.device];
        }
      } else if a.kind == "format" {
        if a.id != "" && a.volume != "" && IsFAT(a.fstype) {
          formats := formats[a.volume := a.id];
        }
      } else if a.kind == "mount" {
        if a.device != "" && a.path == "/boot/efi" {
          mounts := mounts + {a.device};
        }
      }
    }
    assert actions[..|actions|] == actions;
    ghost var found := Collect(actions);
    var left := partitions.Keys;
    while left != {}
      invariant left <= partitions.Keys
      invariant forall p :: p in partitions && p !in left ==> !Bootable(found, p)
      decreases |left|
    {
      var partition :| partition in left;
      left := left - {partition};
      if partitions[partition] !in disks {
        continue;
      }
      if partition !in formats || formats[partition] == "" {
        continue;
      }
      if formats[partition] in mounts || partition in mounts {
        return true;
      }
    }
    return false;
  }

  // ---------------------------------------------------------------- the declarative reading

  /** Four actions that together define an EFI System Partition. */
  ghost predicate Chain(actions: seq<Action>, d: nat, p: nat, f: nat, m: nat) {
    && d < |actions| && p < |actions| && f < |actions| && m < |actions|
    && var disk, part, format, mount := actions[d], actions[p], actions[f], actions[m];
       && disk.kind == "disk" && disk.ptable == "gpt" && disk.id != ""
       && part.kind == "partition" && part.flag == "boot" && part.id != "" && part.device == disk.id
       && format.kind == "format" && format.fstype in ["fat", "fat16", "fat32", "vfat"]
       && format.id != "" && format.volume == part.id
       && mount.kind == "mount" && mount.path == "/boot/efi"
       && (mount.device == format.id || mount.device == part.id)
  }

  /** No later boot partition reuses the id. */
  ghost predicate LastPartition(actions: seq<Action>, p: nat)
    requires p < |actions|
  {
    forall k :: p < k < |actions| ==> !(IsBootPartition(actions[k]) && actions[k].id == actions[p].id)
  }

  /** No later FAT format is for the same volume. */
  ghost predicate LastFormat(actions: seq<Action>, f: nat)
    requires f < |actions|
  {
    forall k :: f < k < |actions| ==> !(IsFATFormat(actions[k]) && actions[k].volume == actions[f].volume)
  }

  ghost predicate EffectiveChain(actions: seq<Action>, d: nat, p: nat, f: nat, m: nat) {
    Chain(actions, d, p, f, m) && LastPartition(actions, p) && LastFormat(actions, f)
  }

  lemma {:induction false} DisksOf(actions: seq<Action>, id: string)
    ensures id in Collect(actions).disks
       <==> exists d :: 0 <= d < |actions| && IsGPTDisk(actions[d]) && actions[d].id == id
  {
    if actions != [] {
      DisksOf(actions[..|actions| - 1], id);
    }
  }

  lemma {:induction false} MountsOf(actions: seq<Action>, device: string)
    ensures device in Collect(actions).mounts
       <==> exists m :: 0 <= m < |actions| && IsEFIMount(actions[m]) && actions[m].device == device
  {
    if actions != [] {
      MountsOf(actions[..|actions| - 1], device);
    }
  }

  ghost predicate PartitionIs(actions: seq<Action>, p: nat, id: string, device: string) {
    && p < |actions| && IsBootPartition(actions[p]) && actions[p].id == id && actions[p].device == device
    && LastPartition(actions, p)
  }

  /** The partition map holds the device of the last boot partition with an id. */
  lemma {:induction false} PartitionsOf(actions: seq<Action>, id: string, device: string)
    ensures id in Collect(actions).partitions && Collect(actions).partitions[id] == device
       <==> exists p: nat :: PartitionIs(actions, p, id, device)
  {
    if actions != [] {
      var n := |actions| - 1;
      var before := actions[..n];
      PartitionsOf(before, id, device);
      if IsBootPartition(actions[n]) && actions[n].id == id {
        assert LastPartition(actions, n);
        assert actions[n].device == device ==> PartitionIs(actions, n, id, device);
      } else {
        forall p: nat
          ensures PartitionIs(actions, p, id, device) <==> PartitionIs(before, p, id, device)
        {
          if p < n {
            assert before[p] == actions[p];
            assert forall k :: p < k < n ==> before[k] == actions[k];
          }
        }
      }
    }
  }

  ghost predicate FormatIs(actions: seq<Action>, f: nat, volume: string, id: string) {
    && f < |actions| && IsFATFormat(actions[f]) && actions[f].volume == volume && actions[f].id == id
    && LastFormat(actions, f)
  }

  /** The format map holds the id of the last FAT format of a volume. */
  lemma {:induction false} FormatsOf(actions: seq<Action>, volume: string, id: string)
    ensures volume in Collect(actions).formats && Collect(actions).formats[volume] == id
       <==> exists f: nat :: FormatIs(actions, f, volume, id)
  {
    if actions != [] {
      var n := |actions| - 1;
      var before := actions[..n];
      FormatsOf(before, volume, id);
      if IsFATFormat(actions[n]) && actions[n].volume == volume {
        assert LastFormat(actions, n);
        assert actions[n].id == id ==> FormatIs(actions, n, volume, id);
      } else {
        forall f: nat
          ensures FormatIs(actions, f, volume, id) <==> FormatIs(before, f, volume, id)
        {
          if f < n {
            assert before[f] == actions[f];
            assert forall k :: f < k < n ==> before[k] == actions[k];
          }
        }
      }
    }
  }

  /** The check answers yes exactly when some chain of actions is not overridden by a later
      partition or format. */
  lemma CheckIsExact(actions: seq<Action>)
    ensures HasESP(Collect(actions)) <==> exists d: nat, p: nat, f: nat, m: nat :: EffectiveChain(actions, d, p, f, m)
  {
    var found := Collect(actions);
    if HasESP(found) {
      var id :| id in found.partitions && Bootable(found, id);
      PartitionsOf(actions, id, found.partitions[id]);
      var p: nat :| PartitionIs(actions, p, id, found.partitions[id]);
      DisksOf(actions, found.partitions[id]);
      var d: nat :| d < |actions| && IsGPTDisk(actions[d]) && actions[d].id == found.partitions[id];
      FormatsOf(actions, id, found.formats[id]);
      var f: nat :| FormatIs(actions, f, id, found.formats[id]);
      MountsOf(actions, found.formats[id]);
      MountsOf(actions, id);
      var m: nat :| m < |actions| && IsEFIMount(actions[m]) && (actions[m].device == found.formats[id] || actions[m].device == id);
      assert EffectiveChain(actions, d, p, f, m);
    }
    forall d: nat, p: nat, f: nat, m: nat | EffectiveChain(actions, d, p, f, m)
      ensures HasESP(found)
    {
      var id, device, format := actions[p].id, actions[p].device, actions[f].id;
      assert PartitionIs(actions, p, id, device);
      PartitionsOf(actions, id, device);
      DisksOf(actions, device);
      assert FormatIs(actions, f, id, format);
      FormatsOf(actions, id, format);
      MountsOf(actions, format);
      MountsOf(actions, id);
      assert Bootable(found, id);
    }
  }

  /** Boot partitions have ids of their own, and no volume has two FAT formats. */
  ghost predicate Unambiguous(actions: seq<Action>) {
    && (forall i, j :: 0 <= i < j < |actions| && IsBootPartition(actions[i]) && IsBootPartition(actions[j]) ==>
          actions[i].id != actions[j].id)
    && (forall i, j :: 0 <= i < j < |actions| && IsFATFormat(actions[i]) && IsFATFormat(actions[j]) ==>
          actions[i].volume != actions[j].volume)
  }

  /** A yes always means a real chain; and without ambiguity every chain is found. */
  lemma CheckIsSoundAndComplete(actions: seq<Action>)
    ensures HasESP(Collect(actions)) ==> exists d: nat, p: nat, f: nat, m: nat :: Chain(actions, d, p, f, m)
    ensures Unambiguous(actions) ==>
              (HasESP(Collect(actions)) <==> exists d: nat, p: nat, f: nat, m: nat :: Chain(actions, d, p, f, m))
  {
    CheckIsExact(actions);
    if HasESP(Collect(actions)) {
      var d: nat, p: nat, f: nat, m: nat :| EffectiveChain(actions, d, p, f, m);
      assert Chain(actions, d, p, f, m);
    }
    if Unambiguous(actions) {
      forall d: nat, p: nat, f: nat, m: nat | Chain(actions, d, p, f, m)
        ensures EffectiveChain(actions, d, p, f, m)
      {
      }
    }
  }

  /** An ambiguous configuration with a real chain that the check refuses: the partition is
      formatted twice and the first format is the one that is mounted. */
  lemma OverriddenFormatIsMissed()
    ensures var disk := Action("disk0", "disk", "gpt", "", "", "", "", "");
            var part := Action("esp", "partition", "", "disk0", "boot", "", "", "");
            var fat1 := Action("fat1", "format", "", "", "", "esp", "fat32", "");
            var fat2 := Action("fat2", "format", "", "", "", "esp", "fat32", "");
            var mount := Action("mount0", "mount", "", "fat1", "", "", "", "/boot/efi");
            var actions := [disk, part, fat1, fat2, mount];
            Chain(actions, 0, 1, 2, 4) && !HasESP(Collect(actions))
  {
    var disk := Action("disk0", "disk", "gpt", "", "", "", "", "");
    var part := Action("esp", "partition", "", "disk0", "boot", "", "", "");
    var fat1 := Action("fat1", "format", "", "", "", "esp", "fat32", "");
    var fat2 := Action("fat2", "format", "", "", "", "esp", "fat32", "");
    var mount := Action("mount0", "mount", "", "fat1", "", "", "", "/boot/efi");
    var actions := [disk, part, fat1, fat2, mount];
    hide Collect;
    CheckIsExact(actions);
    forall d: nat, p: nat, f: nat, m: nat
      ensures !EffectiveChain(actions, d, p, f, m)
    {
      assert IsFATFormat(actions[3]) && actions[3].volume == "esp";
      assert "fat1"[3] != "fat2"[3];
    }
  }

  lemma StillUnambiguous(a: seq<Action>, b: seq<Action>)
    requires multiset(a) == multiset(b) && Unambiguous(a)
    ensures Unambiguous(b)
  {
    forall i, j | 0 <= i < j < |b|
      ensures IsBootPartition(b[i]) && IsBootPartition(b[j]) ==> b[i].id != b[j].id
      ensures IsFATFormat(b[i]) && IsFATFormat(b[j]) ==> b[i].volume != b[j].volume
    {
      var i', j' := TwoPositions(a, b, i, j);
      assert i' < j' || j' < i';
    }
  }

  lemma ChainMoves(a: seq<Action>, b: seq<Action>)
    requires multiset(a) == multiset(b)
    ensures (exists d: nat, p: nat, f: nat, m: nat :: Chain(a, d, p, f, m)) ==> exists d: nat, p: nat, f: nat, m: nat :: Chain(b, d, p, f, m)
  {
    if exists d: nat, p: nat, f: nat, m: nat :: Chain(a, d, p, f, m) {
      var d: nat, p: nat, f: nat, m: nat :| Chain(a, d, p, f, m);
      var d', p', f', m' := Find(a, b, d), Find(a, b, p), Find(a, b, f), Find(a, b, m);
      assert Chain(b, d', p', f', m');
    }
  }

  /** Without ambiguity the order of the actions does not matter. */
  lemma OrderIndependent(a: seq<Action>, b: seq<Action>)
    requires multiset(a) == multiset(b) && Unambiguous(a)
    ensures HasESP(Collect(a)) == HasESP(Collect(b))
  {
    StillUnambiguous(a, b);
    CheckIsSoundAndComplete(a);
    CheckIsSoundAndComplete(b);
    ChainMoves(a, b);
    ChainMoves(b, a);
  }
}
