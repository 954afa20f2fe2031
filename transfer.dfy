/** The device-URL loop of `get_instance`: every disk the lease offers is
    fetched, its slot index read from its key, and converted; slot "0"
    becomes the boot image, every other slot a volume. */
module Transfer {
  import opened Wrappers
  import opened Entities
  import opened Names
  import opened DiskFetch

  /** The slot index that marks the boot disk. */
  const BootIndex := "0"

  /** Why the loop stopped; the caller turns every one of these into the
      same "Failed to download disk." exception. */
  datatype Fault =
    | DiskDownloadFailed
    | KeyWithoutIndex
    | ConvertFailed
    | InspectFailed

  /** The loop's variables: the file system, `image_info` (None for
      `{}`), `volume_info`, and the actions so far. */
  datatype Progress = Progress(
    fs: set<string>,
    image: Option<ImageInfo>,
    volumes: seq<Volume>,
    trace: seq<Event>)

  /** A stopped loop: the fault and the file system and actions it left. */
  datatype Failed = Failed(fault: Fault, fs: set<string>, trace: seq<Event>)

  /** Where a device URL's disk is stored: `os.path.join(con_dir, targetId)`. */
  function DiskPath(conDir: string, u: DeviceUrl): string
  {
    JoinPath(conDir, u.targetId)
  }

  /** `qemu_img_info(path).virtual_size/(1024*1024*1024)` under true division. */
  function VirtualSizeGiB(bytes: nat): real
  {
    bytes as real / 1073741824.0
  }

  /** The volume descriptor for slot `index`. */
  function VolumeFor(vmName: string, index: string, converted: string, bytes: nat): Volume
  {
    Volume(ImageInfo(VolumeName(vmName, index), converted), VirtualSizeGiB(bytes),
           VolumeName(vmName, index), VolumeName(vmName, index))
  }

  /** One pass of the loop body for device URL `u`: fetch the disk, then
      classify it. */
  function Step(env: Environment, vmName: string, conDir: string, p: Progress, u: DeviceUrl): Result<Progress, Failed>
  {
    var path := DiskPath(conDir, u);
    var fetched := GetInstanceDisk(env, p.fs, u.url, path);
    var trace := p.trace + fetched.events;
    if !fetched.ok then Failure(Failed(DiskDownloadFailed, fetched.fs, trace))
    else Classify(env, vmName, path, u.key, Progress(fetched.fs, p.image, p.volumes, trace))
  }

  /** The rest of a pass, once the disk is at `path`: split the key,
      convert the disk, and record it as the boot image (slot "0") or as
      a volume. It neither touches the file system nor acts. */
  function Classify(env: Environment, vmName: string, path: string, key: string, p: Progress): (r: Result<Progress, Failed>)
    ensures r.Success? ==> r.value.fs == p.fs && r.value.trace == p.trace
    ensures r.Failure? ==> r.error.fs == p.fs && r.error.trace == p.trace
    ensures r.Success? <==>
      && KeyIndex(key).Some?
      && env.convert(path).Some?
      && (KeyIndex(key).value != BootIndex ==> env.inspect(env.convert(path).value).Some?)
  {
    match KeyIndex(key)
    case None => Failure(Failed(KeyWithoutIndex, p.fs, p.trace))
    case Some(index) =>
      match env.convert(path)
      case None => Failure(Failed(ConvertFailed, p.fs, p.trace))
      case Some(converted) =>
        if index == BootIndex then
          Success(p.(image := Some(ImageInfo(ImageName(vmName, index), converted))))
        else match env.inspect(converted)
          case None => Failure(Failed(InspectFailed, p.fs, p.trace))
          case Some(bytes) =>
            Success(p.(volumes := p.volumes + [VolumeFor(vmName, index, converted, bytes)]))
  }

  /** The loop run over `urls` from state `init`; it stops at the first
      failing pass. */
  function Run(env: Environment, vmName: string, conDir: string, init: Progress, urls: seq<DeviceUrl>): Result<Progress, Failed>
    decreases |urls|
  {
    if urls == [] then Success(init)
    else match Run(env, vmName, conDir, init, urls[..|urls| - 1])
      case Failure(f) => Failure(f)
      case Success(p) => Step(env, vmName, conDir, p, urls[|urls| - 1])
  }

  /** A failure in a prefix is the failure of the whole run. */
  lemma {:induction false} FailureStops(env: Environment, vmName: string, conDir: string, init: Progress, urls: seq<DeviceUrl>, k: nat)
    requires k <= |urls|
    requires Run(env, vmName, conDir, init, urls[..k]).Failure?
    ensures Run(env, vmName, conDir, init, urls) == Run(env, vmName, conDir, init, urls[..k])
    decreases |urls|
  {
    if k == |urls| {
      assert urls[..k] == urls;
    } else {
      var init' := urls[..|urls| - 1];
      assert init'[..k] == urls[..k];
      FailureStops(env, vmName, conDir, init, init', k);
    }
  }

  /** The `for device_url in device_urls` loop. */
  method TransferDisks(env: Environment, vmName: string, conDir: string, init: Progress, deviceUrls: seq<DeviceUrl>)
    returns (r: Result<Progress, Failed>)
    ensures r == Run(env, vmName, conDir, init, deviceUrls)
  {
    var fs, imageInfo, volumeInfo, trace := init.fs, init.image, init.volumes, init.trace;
    var i := 0;
    while i < |deviceUrls|
      invariant 0 <= i <= |deviceUrls|
      invariant Run(env, vmName, conDir, init, deviceUrls[..i]) == Success(Progress(fs, imageInfo, volumeInfo, trace))
    {
      var deviceUrl := deviceUrls[i];
      assert deviceUrls[..i + 1][..i] == deviceUrls[..i];
      ghost var before := Progress(fs, imageInfo, volumeInfo, trace);
      assert Run(env, vmName, conDir, init, deviceUrls[..i + 1]) == Step(env, vmName, conDir, before, deviceUrl);
      var path := DiskPath(conDir, deviceUrl);
      var fetched := GetInstanceDisk(env, fs, deviceUrl.url, path);
      fs, trace := fetched.fs, trace + fetched.events;
      ghost var classified := Classify(env, vmName, path, deviceUrl.key, Progress(fs, imageInfo, volumeInfo, trace));
      var fault: Option<Fault> := None;
      if !fetched.ok {
        fault := Some(DiskDownloadFailed);
      } else {
        var index := KeyIndex(deviceUrl.key);
        if index.None? {
          fault := Some(KeyWithoutIndex);
        } else {
          var converted := env.convert(path);
          if converted.None? {
            fault := Some(ConvertFailed);
          } else if index.value == BootIndex {
            imageInfo := Some(ImageInfo(ImageName(vmName, index.value), converted.value));
          } else {
            var disk := env.inspect(converted.value);
            if disk.None? {
              fault := Some(InspectFailed);
            } else {
              volumeInfo := volumeInfo + [VolumeFor(vmName, index.value, converted.value, disk.value)];
            }
          }
        }
      }
      if fault.Some? {
        FailureStops(env, vmName, conDir, init, deviceUrls, i + 1);
        return Failure(Failed(fault.value, fs, trace));
      }
      i := i + 1;
    }
    assert deviceUrls[..i] == deviceUrls;
    return Success(Progress(fs, imageInfo, volumeInfo, trace));
  }

  // ---------------------------------------------------------------------
  // What the loop produces

  /** The slot index of a device URL, if its key has one. */
  function IndexOf(u: DeviceUrl): Option<string>
  {
    KeyIndex(u.key)
  }

  predicate IsBootUrl(u: DeviceUrl)
  {
    IndexOf(u) == Some(BootIndex)
  }

  predicate IsVolumeUrl(u: DeviceUrl)
  {
    IndexOf(u).Some? && IndexOf(u).value != BootIndex
  }

  /** The device URLs that become volumes, in order. */
  function VolumeUrls(urls: seq<DeviceUrl>): (r: seq<DeviceUrl>)
    ensures |r| <= |urls|
    ensures forall j :: 0 <= j < |r| ==> IsVolumeUrl(r[j])
  {
    if urls == [] then []
    else VolumeUrls(urls[..|urls| - 1]) + (if IsVolumeUrl(urls[|urls| - 1]) then [urls[|urls| - 1]] else [])
  }

  /** The last device URL of slot "0", if any. */
  function LastBootUrl(urls: seq<DeviceUrl>): (r: Option<DeviceUrl>)
    ensures r.Some? ==> r.value in urls && IsBootUrl(r.value)
  {
    if urls == [] then None
    else if IsBootUrl(urls[|urls| - 1]) then Some(urls[|urls| - 1])
    else LastBootUrl(urls[..|urls| - 1])
  }

  /** `v` is the descriptor built for device URL `u`: name, display name
      and image name are all `<vm>_vol_<index>`, the image path is the
      converted disk, the size that disk's virtual size in GiB. */
  predicate DescribesVolume(env: Environment, vmName: string, conDir: string, v: Volume, u: DeviceUrl)
  {
    && IndexOf(u).Some?
    && v.name == VolumeName(vmName, IndexOf(u).value)
    && v.displayName == v.name
    && v.imageInfo.name == v.name
    && env.convert(DiskPath(conDir, u)) == Some(v.imageInfo.localImagePath)
    && env.inspect(v.imageInfo.localImagePath).Some?
    && v.size == VirtualSizeGiB(env.inspect(v.imageInfo.localImagePath).value)
  }

  /** What a successful pass records: a slot-"0" URL replaces the boot
      image and adds no volume; any other URL appends its own volume and
      leaves the image alone. */
  lemma StepRecords(env: Environment, vmName: string, conDir: string, p: Progress, u: DeviceUrl)
    requires Step(env, vmName, conDir, p, u).Success?
    ensures var q := Step(env, vmName, conDir, p, u).value;
      && PassSucceeds(env, conDir, u)
      && (DiskPath(conDir, u) in p.fs || DownloadSucceeds(env, conDir, u))
      && (IsBootUrl(u) ==>
            && q.volumes == p.volumes
            && q.image.Some?
            && q.image.value.name == ImageName(vmName, BootIndex)
            && env.convert(DiskPath(conDir, u)) == Some(q.image.value.localImagePath))
      && (!IsBootUrl(u) ==>
            && IsVolumeUrl(u)
            && q.image == p.image
            && q.volumes == p.volumes + [q.volumes[|p.volumes|]]
            && DescribesVolume(env, vmName, conDir, q.volumes[|p.volumes|], u))
  {
  }

  /** A successful loop appends exactly one volume per non-boot device URL,
      in device-URL order, each described by its URL. */
  lemma {:induction false} RunVolumes(env: Environment, vmName: string, conDir: string, init: Progress, urls: seq<DeviceUrl>)
    requires Run(env, vmName, conDir, init, urls).Success?
    ensures var vols := Run(env, vmName, conDir, init, urls).value.volumes;
      && |vols| == |init.volumes| + |VolumeUrls(urls)|
      && vols[..|init.volumes|] == init.volumes
      && forall j :: 0 <= j < |VolumeUrls(urls)| ==>
           DescribesVolume(env, vmName, conDir, vols[|init.volumes| + j], VolumeUrls(urls)[j])
    decreases |urls|
  {
    if urls != [] {
      var prefix, u := urls[..|urls| - 1], urls[|urls| - 1];
      RunVolumes(env, vmName, conDir, init, prefix);
      var p := Run(env, vmName, conDir, init, prefix).value;
      assert Run(env, vmName, conDir, init, urls) == Step(env, vmName, conDir, p, u);
      StepRecords(env, vmName, conDir, p, u);
    }
  }

  /** After a successful loop `image_info` describes the LAST device URL of
      slot "0"; with no such URL it is what it was before the loop. */
  lemma {:induction false} RunImage(env: Environment, vmName: string, conDir: string, init: Progress, urls: seq<DeviceUrl>)
    requires Run(env, vmName, conDir, init, urls).Success?
    ensures var image := Run(env, vmName, conDir, init, urls).value.image;
      match LastBootUrl(urls)
      case None => image == init.image
      case Some(u) =>
        && image.Some?
        && image.value.name == ImageName(vmName, BootIndex)
        && env.convert(DiskPath(conDir, u)) == Some(image.value.localImagePath)
    decreases |urls|
  {
    if urls != [] {
      var prefix, u := urls[..|urls| - 1], urls[|urls| - 1];
      RunImage(env, vmName, conDir, init, prefix);
      var p := Run(env, vmName, conDir, init, prefix).value;
      assert Run(env, vmName, conDir, init, urls) == Step(env, vmName, conDir, p, u);
      StepRecords(env, vmName, conDir, p, u);
    }
  }

  /** What one pass needs besides the download: a key with a ':' index,
      a converter that succeeds, and for a volume a readable size. */
  predicate PassSucceeds(env: Environment, conDir: string, u: DeviceUrl)
  {
    && IndexOf(u).Some?
    && env.convert(DiskPath(conDir, u)).Some?
    && (IndexOf(u).value != BootIndex ==> env.inspect(env.convert(DiskPath(conDir, u)).value).Some?)
  }

  /** wget would succeed for this device URL. */
  predicate DownloadSucceeds(env: Environment, conDir: string, u: DeviceUrl)
  {
    env.fetch(EffectiveUrl(u.url, env.parse(u.url), env.host), DiskPath(conDir, u))
  }

  /** The disk of pass `i` is on the local file system before that pass
      (it was there before the loop, or an earlier pass fetched the same
      path), or wget would fetch it. */
  predicate DiskAvailable(env: Environment, conDir: string, fs0: set<string>, urls: seq<DeviceUrl>, i: nat)
    requires i < |urls|
  {
    DiskPath(conDir, urls[i]) in fs0 + DiskPaths(conDir, urls[..i]) || DownloadSucceeds(env, conDir, urls[i])
  }

  /** The loop succeeds only if every pass has its index, conversion and
      size, and every disk that is not yet on the local file system is
      fetched by wget: a key without ':', a failing wget or a failing tool
      anywhere fails it. */
  lemma {:induction false} RunNeedsEveryPass(env: Environment, vmName: string, conDir: string, init: Progress, urls: seq<DeviceUrl>)
    requires Run(env, vmName, conDir, init, urls).Success?
    ensures forall i :: 0 <= i < |urls| ==> PassSucceeds(env, conDir, urls[i])
    ensures forall i :: 0 <= i < |urls| ==> DiskAvailable(env, conDir, init.fs, urls, i)
    decreases |urls|
  {
    if urls != [] {
      var prefix, u := urls[..|urls| - 1], urls[|urls| - 1];
      RunNeedsEveryPass(env, vmName, conDir, init, prefix);
      RunFiles(env, vmName, conDir, init, prefix);
      var p := Run(env, vmName, conDir, init, prefix).value;
      assert Run(env, vmName, conDir, init, urls) == Step(env, vmName, conDir, p, u);
      StepRecords(env, vmName, conDir, p, u);
      forall i | 0 <= i < |urls|
        ensures PassSucceeds(env, conDir, urls[i]) && DiskAvailable(env, conDir, init.fs, urls, i)
      {
        if i < |prefix| {
          assert urls[i] == prefix[i];
          assert urls[..i] == prefix[..i];
          assert DiskAvailable(env, conDir, init.fs, prefix, i);
        } else {
          assert urls[..i] == prefix;
        }
      }
    }
  }

  /** Conversely, when every pass would have its index, conversion and
      size, and every disk not yet on the local file system would be
      fetched, the loop succeeds. */
  lemma {:induction false} RunSucceedsWhenEveryPassDoes(env: Environment, vmName: string, conDir: string, init: Progress, urls: seq<DeviceUrl>)
    requires forall i :: 0 <= i < |urls| ==> PassSucceeds(env, conDir, urls[i]) && DiskAvailable(env, conDir, init.fs, urls, i)
    ensures Run(env, vmName, conDir, init, urls).Success?
    decreases |urls|
  {
    if urls != [] {
      var prefix, u := urls[..|urls| - 1], urls[|urls| - 1];
      forall i | 0 <= i < |prefix|
        ensures PassSucceeds(env, conDir, prefix[i]) && DiskAvailable(env, conDir, init.fs, prefix, i)
      {
        assert prefix[i] == urls[i];
        assert prefix[..i] == urls[..i];
        assert DiskAvailable(env, conDir, init.fs, urls, i);
      }
      RunSucceedsWhenEveryPassDoes(env, vmName, conDir, init, prefix);
      RunFiles(env, vmName, conDir, init, prefix);
      var p := Run(env, vmName, conDir, init, prefix).value;
      assert Run(env, vmName, conDir, init, urls) == Step(env, vmName, conDir, p, u);
      assert urls[..|urls| - 1] == prefix;
      assert DiskAvailable(env, conDir, init.fs, urls, |urls| - 1);
    }
  }

  /** The file system and actions a run leaves, whether or not it fails. */
  function FsAfter(r: Result<Progress, Failed>): set<string>
  {
    match r
    case Success(p) => p.fs
    case Failure(f) => f.fs
  }

  function TraceAfter(r: Result<Progress, Failed>): seq<Event>
  {
    match r
    case Success(p) => p.trace
    case Failure(f) => f.trace
  }

  /** The local paths of the device URLs' disks. */
  function DiskPaths(conDir: string, urls: seq<DeviceUrl>): set<string>
  {
    if urls == [] then {}
    else DiskPaths(conDir, urls[..|urls| - 1]) + {DiskPath(conDir, urls[|urls| - 1])}
  }

  /** What one pass does to the file system and the actions: at most one
      wget, only for the disk's path and only when that path is absent; a
      successful pass leaves the path on the file system. */
  lemma StepEffects(env: Environment, vmName: string, conDir: string, p: Progress, u: DeviceUrl)
    ensures var r := Step(env, vmName, conDir, p, u);
      var path := DiskPath(conDir, u);
      var t := TraceAfter(r);
      && p.fs <= FsAfter(r) <= p.fs + {path}
      && (r.Success? ==> r.value.fs == p.fs + {path})
      && |p.trace| <= |t| <= |p.trace| + 1
      && t[..|p.trace|] == p.trace
      && (|t| == |p.trace| + 1 ==> t[|p.trace|].Wget? && t[|p.trace|].path == path && path !in p.fs)
  {
    var path := DiskPath(conDir, u);
    var fetched := GetInstanceDisk(env, p.fs, u.url, path);
    var r := Step(env, vmName, conDir, p, u);
    assert FsAfter(r) == fetched.fs;
    assert TraceAfter(r) == p.trace + fetched.events;
    assert (p.trace + fetched.events)[..|p.trace|] == p.trace;
  }

  /** A successful loop leaves every device URL's disk on the local file
      system and adds nothing else to it. */
  lemma {:induction false} RunFiles(env: Environment, vmName: string, conDir: string, init: Progress, urls: seq<DeviceUrl>)
    requires Run(env, vmName, conDir, init, urls).Success?
    ensures Run(env, vmName, conDir, init, urls).value.fs == init.fs + DiskPaths(conDir, urls)
    decreases |urls|
  {
    if urls != [] {
      var prefix, u := urls[..|urls| - 1], urls[|urls| - 1];
      assert Run(env, vmName, conDir, init, prefix).Success?;
      RunFiles(env, vmName, conDir, init, prefix);
      var p := Run(env, vmName, conDir, init, prefix).value;
      assert Run(env, vmName, conDir, init, urls) == Step(env, vmName, conDir, p, u);
      StepEffects(env, vmName, conDir, p, u);
    }
  }

  /** The actions a run adds are wget runs only, each for a path that did
      not exist before the loop, and no two for the same path. */
  predicate FreshWgets(trace: seq<Event>, from: nat, fs0: set<string>)
  {
    && from <= |trace|
    && (forall k :: from <= k < |trace| ==> trace[k].Wget? && trace[k].path !in fs0)
    && (forall k1, k2 :: from <= k1 < k2 < |trace| ==> trace[k1].path != trace[k2].path)
  }

  /** Appending at most one wget, for a path absent from `fs` (which holds
      the paths fetched so far), keeps the wgets fresh and distinct. */
  lemma FreshWgetsExtend(t0: seq<Event>, t: seq<Event>, from: nat, fs0: set<string>, fs: set<string>)
    requires FreshWgets(t0, from, fs0)
    requires fs0 <= fs
    requires forall k :: from <= k < |t0| ==> t0[k].path in fs
    requires |t0| <= |t| <= |t0| + 1 && t[..|t0|] == t0
    requires |t| == |t0| + 1 ==> t[|t0|].Wget? && t[|t0|].path !in fs
    ensures FreshWgets(t, from, fs0)
  {
    assert forall k :: 0 <= k < |t0| ==> t[k] == t0[k] by {
      assert forall k :: 0 <= k < |t0| ==> t[..|t0|][k] == t[k];
    }
    forall k1, k2 | from <= k1 < k2 < |t|
      ensures t[k1].path != t[k2].path
    {
      if k2 == |t0| {
        assert t[k1].path in fs;
      }
    }
  }

  /** A disk is downloaded only when absent, and at most once per loop,
      whether the loop succeeds or not; the actions before the loop are
      kept. While the loop goes on, every path it fetched is present. */
  lemma {:induction false} RunWgets(env: Environment, vmName: string, conDir: string, init: Progress, urls: seq<DeviceUrl>)
    ensures var r := Run(env, vmName, conDir, init, urls);
      && |init.trace| <= |TraceAfter(r)|
      && TraceAfter(r)[..|init.trace|] == init.trace
      && FreshWgets(TraceAfter(r), |init.trace|, init.fs)
      && init.fs <= FsAfter(r)
      && (r.Success? ==> forall k :: |init.trace| <= k < |r.value.trace| ==> r.value.trace[k].path in r.value.fs)
    decreases |urls|
  {
    if urls != [] {
      var prefix, u := urls[..|urls| - 1], urls[|urls| - 1];
      RunWgets(env, vmName, conDir, init, prefix);
      var r0 := Run(env, vmName, conDir, init, prefix);
      if r0.Success? {
        var p := r0.value;
        var r := Step(env, vmName, conDir, p, u);
        assert Run(env, vmName, conDir, init, urls) == r;
        StepEffects(env, vmName, conDir, p, u);
        var n0, t0, t := |init.trace|, p.trace, TraceAfter(r);
        FreshWgetsExtend(t0, t, n0, init.fs, p.fs);
        assert t[..n0] == init.trace by {
          assert t[..n0] == t[..|t0|][..n0];
        }
        if r.Success? {
          forall k | n0 <= k < |t|
            ensures t[k].path in r.value.fs
          {
            if k < |t0| {
              assert t[k] == t[..|t0|][k];
            }
          }
        }
      }
    }
  }
}
