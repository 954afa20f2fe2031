/** Looking VMs up, listing them, and reading the flavor out of a VM's
    configuration. */
module Inventory {
  import opened Wrappers
  import opened Entities

  const InstanceNotFoundMessage := "Instance not found."

  /** `_find_instance_by_uuid`: the search index's answer, or the
      "Instance not found." exception when it answers None. */
  function FindInstanceByUuid(find: string -> Option<Vm>, uuid: string): (r: Result<Vm, Error>)
    ensures r.Success? <==> find(uuid).Some?
    ensures r.Success? ==> r.value == find(uuid).value
    ensures r.Failure? ==> r.error == VSphereException(InstanceNotFoundMessage)
  {
    match find(uuid)
    case None => Failure(VSphereException(InstanceNotFoundMessage))
    case Some(vm) => Success(vm)
  }

  // ---------------------------------------------------------------------
  // get_instance_list

  function EntryOf(config: Config): InstanceEntry
  {
    InstanceEntry(config.name, config.instanceUuid)
  }

  /** The entries `get_instance_list` builds for `vms`, in their order. */
  function ListedInstances(vms: seq<Vm>): (r: seq<InstanceEntry>)
    ensures |r| <= |vms|
  {
    if vms == [] then []
    else
      var last := vms[|vms| - 1];
      ListedInstances(vms[..|vms| - 1]) + (if last.config.Some? then [EntryOf(last.config.value)] else [])
  }

  /** `get_instance_list`. `content` is None when the connection failed, so
      that reading the inventory raised AttributeError, which the source
      prints and then returns None. */
  method GetInstanceList(content: Option<seq<Vm>>) returns (r: Option<seq<InstanceEntry>>)
    ensures content.None? ==> r.None?
    ensures content.Some? ==> r == Some(ListedInstances(content.value))
  {
    if content.None? {
      return None;
    }
    var instances := content.value;
    var instanceList: seq<InstanceEntry> := [];
    var i := 0;
    while i < |instances|
      invariant 0 <= i <= |instances|
      invariant instanceList == ListedInstances(instances[..i])
    {
      var instance := instances[i];
      assert instances[..i + 1][..i] == instances[..i];
      if instance.config.Some? {
        instanceList := instanceList + [EntryOf(instance.config.value)];
      }
      i := i + 1;
    }
    assert instances[..i] == instances;
    return Some(instanceList);
  }

  /** Listing keeps the enumeration order: listing a concatenation lists
      each part in turn. */
  lemma {:induction false} ListedInstancesAppend(a: seq<Vm>, b: seq<Vm>)
    ensures ListedInstances(a + b) == ListedInstances(a) + ListedInstances(b)
    decreases |b|
  {
    if b == [] {
      assert a + b == a;
    } else {
      assert (a + b)[..|a + b| - 1] == a + b[..|b| - 1];
      ListedInstancesAppend(a, b[..|b| - 1]);
    }
  }

  /** An entry is listed exactly when some VM with a configuration has it. */
  lemma {:induction false} ListedInstancesMembership(vms: seq<Vm>, e: InstanceEntry)
    ensures e in ListedInstances(vms) <==>
      exists i :: 0 <= i < |vms| && vms[i].config.Some? && EntryOf(vms[i].config.value) == e
  {
    if vms != [] {
      var init := vms[..|vms| - 1];
      ListedInstancesMembership(init, e);
      assert forall i :: 0 <= i < |init| ==> init[i] == vms[i];
    }
  }

  /** A VM without configuration adds nothing to the listing. */
  lemma UnconfiguredVmIsSkipped(vms: seq<Vm>, vm: Vm)
    requires vm.config.None?
    ensures ListedInstances(vms + [vm]) == ListedInstances(vms)
  {
    assert (vms + [vm])[..|vms|] == vms;
  }

  // ---------------------------------------------------------------------
  // Flavor

  /** Devices with a key in [2000, 3000) are the VM's virtual disks. */
  predicate IsDiskKey(key: int)
  {
    2000 <= key < 3000
  }

  /** `capacityInKB/1024/1024` under Python 3's true division. */
  function CapacityGiB(capacityInKB: int): real
  {
    capacityInKB as real / 1024.0 / 1024.0
  }

  /** The sizes `get_instance` collects in `vm_disks`, in device order. */
  function FlavorDiskSizes(devices: seq<Device>): (r: seq<real>)
    ensures |r| <= |devices|
  {
    if devices == [] then []
    else
      var last := devices[|devices| - 1];
      FlavorDiskSizes(devices[..|devices| - 1]) + (if IsDiskKey(last.key) then [CapacityGiB(last.capacityInKB)] else [])
  }

  /** The loop that fills `vm_disks`. */
  method FlavorDisks(devices: seq<Device>) returns (vmDisks: seq<real>)
    ensures vmDisks == FlavorDiskSizes(devices)
  {
    vmDisks := [];
    var i := 0;
    while i < |devices|
      invariant 0 <= i <= |devices|
      invariant vmDisks == FlavorDiskSizes(devices[..i])
    {
      var vmHardware := devices[i];
      assert devices[..i + 1][..i] == devices[..i];
      if vmHardware.key >= 2000 && vmHardware.key < 3000 {
        vmDisks := vmDisks + [CapacityGiB(vmHardware.capacityInKB)];
      }
      i := i + 1;
    }
    assert devices[..i] == devices;
  }

  lemma {:induction false} FlavorDiskSizesAppend(a: seq<Device>, b: seq<Device>)
    ensures FlavorDiskSizes(a + b) == FlavorDiskSizes(a) + FlavorDiskSizes(b)
    decreases |b|
  {
    if b == [] {
      assert a + b == a;
    } else {
      assert (a + b)[..|a + b| - 1] == a + b[..|b| - 1];
      FlavorDiskSizesAppend(a, b[..|b| - 1]);
    }
  }

  /** A size is collected exactly when some disk-keyed device has it: only
      keys in [2000, 3000) count. */
  lemma {:induction false} FlavorDiskSizesMembership(devices: seq<Device>, size: real)
    ensures size in FlavorDiskSizes(devices) <==>
      exists i :: 0 <= i < |devices| && IsDiskKey(devices[i].key) && CapacityGiB(devices[i].capacityInKB) == size
  {
    if devices != [] {
      var init := devices[..|devices| - 1];
      FlavorDiskSizesMembership(init, size);
      assert forall i :: 0 <= i < |init| ==> init[i] == devices[i];
    }
  }

  /** No disk is collected exactly when no device has a disk key; then
      `vm_disks[0]` raises IndexError. */
  lemma {:induction false} NoDiskKeyNoFlavorDisk(devices: seq<Device>)
    ensures FlavorDiskSizes(devices) == [] <==> forall i :: 0 <= i < |devices| ==> !IsDiskKey(devices[i].key)
  {
    if devices != [] {
      var init := devices[..|devices| - 1];
      NoDiskKeyNoFlavorDisk(init);
      assert forall i :: 0 <= i < |init| ==> init[i] == devices[i];
    }
  }

  /** The root disk `vm_disks[0]` is the size of the first disk-keyed device. */
  lemma RootDiskIsFirstDisk(devices: seq<Device>, i: nat)
    requires i < |devices| && IsDiskKey(devices[i].key)
    requires forall j :: 0 <= j < i ==> !IsDiskKey(devices[j].key)
    ensures FlavorDiskSizes(devices) != []
    ensures FlavorDiskSizes(devices)[0] == CapacityGiB(devices[i].capacityInKB)
  {
    var before, at, after := devices[..i], devices[i..i + 1], devices[i + 1..];
    assert devices == before + at + after;
    NoDiskKeyNoFlavorDisk(before);
    FlavorDiskSizesAppend(before + at, after);
    FlavorDiskSizesAppend(before, at);
    assert at[..0] == [];
  }
}
