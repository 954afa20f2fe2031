/** The values the export driver works on. Everything the driver reads from
    vSphere, from the local disk or from external tools is an input here:
    the `Environment` bundles those inputs for one call of `get_instance`. */
module Entities {
  import opened Wrappers

  /** `vm.runtime.powerState` */
  datatype PowerState = PoweredOn | PoweredOff | Suspended

  /** `task.info.state` of the power-off task */
  datatype TaskState = Queued | Running | TaskSuccess | TaskError

  /** `lease.state` of an HttpNfcLease */
  datatype LeaseState = Initializing | Ready | Done | LeaseError

  /** One entry of `config.hardware.device`; only devices whose key lies in
      [2000, 3000) are virtual disks, and for those `capacityInKB` is the
      disk size. */
  datatype Device = Device(key: int, capacityInKB: int)

  /** The parts of `vm.config` the driver reads. */
  datatype Config = Config(
    name: string,
    instanceUuid: string,
    memoryMB: int,
    numCPU: int,
    devices: seq<Device>)

  /** A virtual machine as the inventory returns it; `config` is None when
      vSphere gives no configuration for it. */
  datatype Vm = Vm(name: string, config: Option<Config>, powerState: PowerState)

  /** One `{'name': ..., 'id_at_source': ...}` entry of the VM listing. */
  datatype InstanceEntry = InstanceEntry(name: string, idAtSource: string)

  /** One `lease.info.deviceUrl` entry: the transfer URL, the target file
      name and a key of the form `<prefix>:<index>[:...]`. */
  datatype DeviceUrl = DeviceUrl(url: string, targetId: string, key: string)

  /** The six fields `urlparse` splits a URL into. */
  datatype UrlParts = UrlParts(
    scheme: string,
    netloc: string,
    path: string,
    params: string,
    query: string,
    fragment: string)

  /** The two reads of `lease.info.deviceUrl`; None stands for a read that
      raised IndexError. The second read happens only after the first
      raised. */
  datatype DeviceUrlListing = DeviceUrlListing(
    first: Option<seq<DeviceUrl>>,
    retry: Option<seq<DeviceUrl>>)

  /** `{'name': ..., 'local_image_path': ...}` */
  datatype ImageInfo = ImageInfo(name: string, localImagePath: string)

  /** One entry of `volume_info`; `size` is the virtual size in GiB. */
  datatype Volume = Volume(
    imageInfo: ImageInfo,
    size: real,
    name: string,
    displayName: string)

  /** `flavor_info`; `disk` is the size in GiB of the first virtual disk. */
  datatype Flavor = Flavor(name: string, ram: int, vcpus: int, disk: real)

  /** The result dictionary of `get_instance`; `imageInfo` is None where the
      source leaves `image_info` as `{}`. */
  datatype Migration = Migration(
    name: string,
    imageInfo: Option<ImageInfo>,
    flavorInfo: Flavor,
    volumeInfo: seq<Volume>)

  /** Exceptions that leave the driver. */
  datatype Error =
    | VSphereException(message: string)
    | IndexError
    | AttributeError

  /** The remote and local actions of one export, in the order they happen.
      `Wget` is one run of wget, whether or not it succeeds. The other
      events are calls that returned normally: in particular
      `LeaseCompleted` means `HttpNfcLeaseComplete()` returned, and a
      completion call that raises leaves no event. */
  datatype Event =
    | PowerOffRequested
    | LeaseRequested
    | HeartbeatStarted
    | Wget(url: string, path: string)
    | LeaseCompleted
    | HeartbeatJoined

  /** Everything a call of `get_instance` observes from outside.
      - find: `searchIndex.FindByUuid` for a UUID
      - taskStates(i): the i-th read of the power-off task's state
      - leaseStates(i): the i-th read of `lease.state` on the main thread
      - host: `self.cloud.params['host']`
      - parse: `urlparse`
      - fetch(url, path): whether `wget url -O path` succeeds
      - convert(path): the qcow2 path `convert_vmdk_to_qcow2` returns, None if it raises
      - inspect(path): `qemu_img_info(path).virtual_size` in bytes, None if it raises
      - completes: whether `HttpNfcLeaseComplete()` returns normally */
  datatype Environment = Environment(
    find: string -> Option<Vm>,
    taskStates: nat -> TaskState,
    leaseStates: nat -> LeaseState,
    listing: DeviceUrlListing,
    host: string,
    parse: string -> UrlParts,
    fetch: (string, string) -> bool,
    convert: string -> Option<string>,
    inspect: string -> Option<nat>,
    completes: bool)
}
