# vSphere export driver — a Dafny model

The driver `driver/vsphere.py` exports a virtual machine from vSphere so that
another cloud can import it. `get_instance` looks the VM up by UUID. It reads
the flavor (memory, CPUs, root disk) from the VM's configuration and powers the
VM off if it is on. It then takes an HttpNfc export lease and waits until the
lease is `ready`. It starts a keep-alive thread and downloads every disk the
lease offers with wget, skipping disks already on the local disk. It converts
each disk to qcow2. Slot `0` becomes the boot image and every other slot
becomes a volume. Finally it completes the lease, joins the thread and returns
`{name, image_info, flavor_info, volume_info}`. `get_instance_list` lists the
VMs that have a configuration.

This project models that decision logic. Everything remote or external is an
input, bundled in `Entities.Environment`:
- the UUID search;
- the successive reads of the power-off task's state and of `lease.state`
  (each read of `lease.state` on the main thread consumes the next
  observation);
- the two possible reads of `lease.info.deviceUrl`;
- the real host;
- `urlparse`;
- whether wget succeeds for a URL and path;
- the converter's and qemu-img's answers;
- whether `HttpNfcLeaseComplete` returns normally.

The local file system is a set of paths. A successful wget adds its path.
Every call also yields the ordered list of actions it took: power-off request,
lease request, heartbeat start, each wget run (successful or not), lease
completion and heartbeat join. Apart from wget runs, an action is recorded
only when its call returned normally.

Files and modules:
- `wrappers.dfy` (`Wrappers`): Option and Result.
- `entities.dfy` (`Entities`): the data model and the environment.
- `names.dfy` (`Names`): name formatting, `key.split(':')[1]` and `os.path.join`.
- `inventory.dfy` (`Inventory`): UUID lookup, the VM listing, the flavor disks.
- `lease.dfy` (`Lease`): the bounded readiness poll and the device-URL read.
- `power.dfy` (`PowerOff`): the power-off poll.
- `disk.dfy` (`DiskFetch`): the wildcard-host rewrite and the skip-if-present download.
- `transfer.dfy` (`Transfer`): the device-URL loop.
- `export.dfy` (`Export`): `get_instance` as a whole.

Each loop the model covers is a method with loop invariants. `GetInstanceLease`,
`GetInstanceList`, `FlavorDisks`, `TransferDisks` and `GetInstance` each
ensure that they compute a specification function, and the properties are
lemmas about those functions. `AwaitPowerOff` states its result directly: it
stops at the first task state that is success or error.

As written, the driver behaves as follows on its failure paths, and the
model does the same:
- A power-off task that ends in `error` does not stop the export. Once the
  task settles, the lease is still requested (`PowerOffOutcomeIgnored`, `LeaseRequestedAfterPowerOff`).
- Every failure inside the transfer block becomes the same
  `VSphereException('Failed to download disk.')` (`FailuresAreNormalised`).
  The message no longer names the cause; the original exception survives
  only as the implicit `__context__` of the new one.
- On such a failure the lease is neither completed nor aborted, and the
  keep-alive thread is never joined (`FailedTransferLeavesHeartbeatRunning`).
- The lease poll raises "Unable to take lease on sorce instance." (sic)
  outside the transfer block, so that message is not normalised.

The source uses module names it never imports or defines: `urlparse`,
`utils`, `exception`, `LOG` and `_`. As written, the first call to reach one
of them would raise NameError. It also reads `self.cloud`, an attribute the
class never sets, which would raise AttributeError. The model gives all of
them their evident meaning.

## Model

| member | source | states |
|---|---|---|
| `Names.KeyIndex` | driver/vsphere.py:169 | the disk-slot index is None exactly when the key has no ':' (the IndexError case), and otherwise contains no ':' |
| `Names.KeyIndexOfComposedKey` | driver/vsphere.py:169 | splitting a key `<prefix>:<index>[:...]` gives back exactly `index` |
| `Names.VolumeNameInjective` | driver/vsphere.py:175-181 | two `<vm>_vol_<index>` names of one VM are equal only for equal indices |
| `Names.ImageNameIsNoVolumeName` | driver/vsphere.py:172-181 | the boot image's `<vm>_image_<index>` name never equals a volume's name |
| `Names.JoinPath` | driver/vsphere.py:166-167 | the disk path ends with the target id; a relative target id lies under `con_dir`, an absolute one replaces it |
| `Inventory.GetInstanceList` | driver/vsphere.py:97-111 | the listing loop builds `ListedInstances` of the inventory; with no connection it returns None |
| `Inventory.ListedInstancesMembership` | driver/vsphere.py:103-108 | an entry `{name, id_at_source}` is listed exactly when some VM with a configuration has that name and UUID |
| `Inventory.ListedInstancesAppend` | driver/vsphere.py:103-108 | the listing keeps enumeration order: listing a concatenation lists each part in turn |
| `Inventory.UnconfiguredVmIsSkipped` | driver/vsphere.py:104-105 | a VM without configuration adds nothing to the listing |
| `Inventory.FlavorDisks` | driver/vsphere.py:118-121 | the device loop collects `FlavorDiskSizes` of the devices |
| `Inventory.FlavorDiskSizesMembership` | driver/vsphere.py:119-121 | a size is collected exactly when some device with key in [2000, 3000) has that capacity |
| `Inventory.NoDiskKeyNoFlavorDisk` | driver/vsphere.py:119-123 | no size is collected exactly when no device key lies in [2000, 3000), which is when `vm_disks[0]` raises |
| `Inventory.RootDiskIsFirstDisk` | driver/vsphere.py:119-123 | the root disk is the capacity of the first device whose key lies in [2000, 3000) |
| `Lease.GetInstanceLease` | driver/vsphere.py:70-78 | the counter loop computes `PollLease` of the lease-state reads, and the number of sleeps it performs |
| `Lease.PollLeaseSpec` | driver/vsphere.py:72-77 | a lease is returned only when a read shows `ready`, after exactly n sleeps where read n (n <= 5) is the first ready one; the poll gives up exactly when reads 0..5 are all not ready, after 5 sleeps |
| `PowerOff.AwaitPowerOff` | driver/vsphere.py:132-136 | the poll stops at the first task state that is success or error, after as many sleeps as non-terminal reads before it |
| `DiskFetch.EffectiveUrlSubstitutesHost` | driver/vsphere.py:56-59 | against `urlunparse`: the rewrite is the same URL with the real host and without params, query and fragment |
| `DiskFetch.GetInstanceDisk` | driver/vsphere.py:52-68 | wget runs exactly when the path is absent; a present path gives success with no action and no change; success leaves the path present; failure leaves the file system unchanged |
| `DiskFetch.GetInstanceDiskIdempotent` | driver/vsphere.py:61-64 | a second call for a path the first call obtained runs no wget and changes nothing |
| `Transfer.Classify` | driver/vsphere.py:169-182 | after the download a pass succeeds exactly when the key has an index, the converter succeeds and, for a volume, qemu-img reports a size; it touches neither files nor actions |
| `Transfer.TransferDisks` | driver/vsphere.py:164-182 | the device-URL loop computes `Transfer.Run`: its invariant ties the loop variables to the run over the URLs processed so far, and a failing pass ends it |
| `Transfer.FailureStops` | driver/vsphere.py:164-191 | once a pass fails, the whole loop fails with that pass's failure |
| `Transfer.StepRecords` | driver/vsphere.py:169-182 | a slot-"0" pass replaces the boot image and adds no volume; any other pass appends exactly its own volume and leaves the image |
| `Transfer.RunVolumes` | driver/vsphere.py:164-182 | a successful loop has one volume per non-"0" device URL, in device-URL order; name, display_name and image name are `<vm>_vol_<index>`, the image path is that URL's converted disk, the size its virtual size in GiB |
| `Transfer.RunImage` | driver/vsphere.py:153-173 | `image_info` is `<vm>_image_0` with the converted disk of the LAST slot-"0" URL; with no such URL it keeps its value from before the loop (`{}`) |
| `Transfer.RunNeedsEveryPass` | driver/vsphere.py:164-182 | the loop succeeds only if every key has an index, every conversion (and size query for volumes) succeeds, and wget succeeds for every disk not on the local disk before its pass (present before the loop or fetched by an earlier pass) |
| `Transfer.RunSucceedsWhenEveryPassDoes` | driver/vsphere.py:164-182 | conversely, when every key has an index, every conversion and size query would succeed, and wget would succeed for every disk not yet on the local disk, the loop succeeds |
| `Transfer.StepEffects` | driver/vsphere.py:61-64 | one pass runs at most one wget, only for its own absent path; a successful pass adds exactly that path |
| `Transfer.RunFiles` | driver/vsphere.py:164-168 | a successful loop leaves exactly the old files plus every device URL's disk path |
| `Transfer.RunWgets` | driver/vsphere.py:61-64 | whether the loop succeeds or fails, it adds only wget runs, each for a path absent before the loop, never two for one path, and keeps the earlier actions |
| `Export.GetInstance` | driver/vsphere.py:113-196 | the whole of `get_instance` computes `GetInstanceOutcome`: result or exception, final files and the ordered actions |
| `Export.UnknownInstanceFails` | driver/vsphere.py:88-95 | an unknown UUID raises "Instance not found." with no action and no file change |
| `Export.FailuresAreNormalised` | driver/vsphere.py:155-191 | a call raises only the lookup, flavor, lease-poll or normalised exception; once the poll returned a lease, every failure (lease not `ready`, no device URLs, a failing pass, a failing completion) is "Failed to download disk." |
| `Export.SuccessOrdering` | driver/vsphere.py:132-196 | a result comes only after power-off (if on), lease request, heartbeat start, then only fresh distinct downloads, then lease completion and heartbeat join as the last two actions |
| `Export.SuccessResult` | driver/vsphere.py:118-196 | a result carries the VM name, the configuration's flavor with the first disk as root disk, one described volume per non-"0" URL, the image of the last slot-"0" URL (or `{}`), every disk on the local disk, and every pass's index, conversion, size and needed download succeeded |
| `Export.NoTransferWithoutReadyLease` | driver/vsphere.py:70-189 | if the poll gives up, or the lease is not `ready` when the transfer block starts, the call fails with no heartbeat, no download and no file change; for a found VM with a disk the exception is "Unable to take lease on sorce instance." in the first case and "Failed to download disk." in the second |
| `Export.DeviceUrlRetryUnused` | driver/vsphere.py:80-86 | when the first read of `lease.info.deviceUrl` answers, the call's outcome does not depend on what a second read would give |
| `Export.NoDeviceUrlsFails` | driver/vsphere.py:155-191 | when both reads of `lease.info.deviceUrl` raise, the call fails with "Failed to download disk." after starting the heartbeat, with no download, no file change, no lease completion and no join |
| `Export.DownloadsFollowHeartbeat` | driver/vsphere.py:155-191 | whatever the call ends in, a download comes only after the power-off (if the VM was on), the lease request and the heartbeat start; a failing call's downloads are each of a path absent before the call, none twice |
| `Export.FailedTransferLeavesHeartbeatRunning` | driver/vsphere.py:155-191 | a failure after the heartbeat started leaves the lease uncompleted and the heartbeat unjoined |
| `Export.RunUsesOnlyTools` | driver/vsphere.py:164-182 | the device-URL loop consults only `urlparse`, the host, wget, the converter and qemu-img: never the power-off task, the lease state or the device-URL reads |
| `Export.PowerOffOutcomeIgnored` | driver/vsphere.py:132-137 | of two calls whose power-off polls settle, the outcome does not depend on whether the task ended in success or error, nor on when |
| `Export.LeaseRequestedAfterPowerOff` | driver/vsphere.py:132-137 | for a powered-on VM whose power-off task settles, the first two actions are the power-off request and then the lease request |

## Left out

- Connection setup, the TLS fallback, `atexit` disconnect and the module-level script (driver/vsphere.py:24-50, 198-200): network and session I/O.
- The `_initialized` re-connection checks (driver/vsphere.py:98-99, 114-115): `__init__` always sets the flag, so these branches never run.
- The keep-alive thread (driver/vsphere.py:139-151, 157-161, 185): only its start and its join appear, as actions. Its sleeps, its progress calls, its own reads of `lease.state`, and how long the join waits are concurrency and are not modelled.
- `get_obj` and `FindByUuid` (driver/vsphere.py:11-19, 89-91): library wrappers; their answers are inputs.
- wget, `convert_vmdk_to_qcow2` and `qemu_img_info` (driver/vsphere.py:63, 170, 177): foreign subprocesses, modelled as oracles. A failing wget leaves the file system unchanged in the model, but `wget -O` may leave a partial file. The converter's output file is not added to the file system.
- `urlparse` (driver/vsphere.py:56): an oracle from URL to its six parts.
- `time.sleep` durations: the lease and power-off polls count their sleeps. The 2-second sleep before the second device-URL read is not counted.
- Floating point: the GiB sizes (driver/vsphere.py:121, 179) are exact reals, not IEEE doubles. The decimal text `'{}'.format` makes of the root disk, and the unused `disks` string (line 122), are not modelled.
- The second read of `lease.state` in the `elif` (driver/vsphere.py:186): both branches raise the same exception, so that read is not modelled.
- `guest_os_name` (driver/vsphere.py:128) is read but never used; not modelled.
- The "Disk download failed." message and its logging (driver/vsphere.py:66-67): the exception is always replaced by the normalised one. It is the fault `DiskDownloadFailed` in the model.
- In `get_instance_list`, only the AttributeError of a missing connection is modelled (result None); the printing is not.
- Remote calls outside the `try` of `get_instance` never raise in the model: reading `self.content.searchIndex` without a connection (driver/vsphere.py:89), `PowerOff()` and `task.info.state` (133-134), `ExportVm()` (71) and the poll's reads of `lease.state` (73). Their failures would propagate unnormalised; the model assumes a working session. Only `get_instance_list` models a missing connection.
- Exception chaining: `Entities.Error` carries no `__context__`, so the model does not keep the exception a normalised failure replaced (driver/vsphere.py:68, 190-191).
- Export.GetInstanceOutcome and every lemma about it describe only calls that return. A powered-on VM whose power-off task never reads success or error makes the source loop forever (driver/vsphere.py:134-136). `GetInstanceOutcome` still gives such an input an outcome, so `PowerOffOutcomeIgnored` and `LeaseRequestedAfterPowerOff` require the poll to settle.
- PowerOff.AwaitPowerOff: requires that some read of the task state is terminal. The source polls without bound and would never return otherwise.
- Export.GetInstance: requires the same of the power-off task whenever the power-off is reached, for the same reason.
