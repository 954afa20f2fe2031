/** `get_instance`: look the VM up, read its flavor, power it off, take the
    export lease, transfer its disks and assemble the result. */
module Export {
  import opened Wrappers
  import opened Entities
  import opened Names
  import opened Inventory
  import opened Lease
  import opened PowerOff
  import opened Transfer
  import opened DiskFetch

  /** The one exception every failure inside the transfer block becomes. */
  const DownloadFailedMessage := "Failed to download disk."

  /** What one call leaves behind: its result or exception, the local file
      system and the actions it took, in order. */
  datatype Outcome = Outcome(result: Result<Migration, Error>, fs: set<string>, trace: seq<Event>)

  function Normalised(): Result<Migration, Error>
  {
    Failure(VSphereException(DownloadFailedMessage))
  }

  /** The actions before the lease is requested. */
  function PowerOffActions(vm: Vm): seq<Event>
  {
    if vm.powerState == PoweredOn then [PowerOffRequested] else []
  }

  /** The transfer block (the `try` of `get_instance`), entered after the
      poll returned a lease after `sleeps` sleeps, with `trace` the actions
      so far. Its next read of `lease.state` is read number `sleeps + 1`. */
  function TransferBlock(env: Environment, vm: Vm, flavor: Flavor, conDir: string, fs: set<string>,
                         sleeps: nat, trace: seq<Event>): Outcome
  {
    if env.leaseStates(sleeps + 1) != Ready then Outcome(Normalised(), fs, trace)
    else
      var started := trace + [HeartbeatStarted];
      match GetDeviceUrls(env.listing)
      case None => Outcome(Normalised(), fs, started)
      case Some(urls) =>
        match Transfer.Run(env, vm.name, conDir, Progress(fs, None, [], started), urls)
        case Failure(f) => Outcome(Normalised(), f.fs, f.trace)
        case Success(p) =>
          if !env.completes then Outcome(Normalised(), p.fs, p.trace)
          else Outcome(Success(Migration(vm.name, p.image, flavor, p.volumes)), p.fs,
                       p.trace + [LeaseCompleted, HeartbeatJoined])
  }

  /** The whole of `get_instance(instance_id, con_dir)` on file system `fs`,
      for a call that returns. When the power-off poll is reached, the call
      returns only if the task settles (`ReachesPowerOff` below); every
      lemma that looks past that poll assumes so. */
  function GetInstanceOutcome(env: Environment, instanceId: string, conDir: string, fs: set<string>): Outcome
  {
    match FindInstanceByUuid(env.find, instanceId)
    case Failure(e) => Outcome(Failure(e), fs, [])
    case Success(vm) =>
      match vm.config
      case None => Outcome(Failure(AttributeError), fs, [])
      case Some(config) =>
        var vmDisks := FlavorDiskSizes(config.devices);
        if vmDisks == [] then Outcome(Failure(IndexError), fs, [])
        else
          var flavor := Flavor(FlavorName(config.name), config.memoryMB, config.numCPU, vmDisks[0]);
          var requested := PowerOffActions(vm) + [LeaseRequested];
          match PollLease(env.leaseStates)
          case LeaseUnavailable => Outcome(Failure(VSphereException(LeaseUnavailableMessage)), fs, requested)
          case LeaseReady(sleeps) => TransferBlock(env, vm, flavor, conDir, fs, sleeps, requested)
  }

  /** The call reaches the power-off poll: the VM is found, has a
      configuration and a disk, and is powered on. */
  predicate ReachesPowerOff(env: Environment, instanceId: string)
  {
    && env.find(instanceId).Some?
    && var vm := env.find(instanceId).value;
    && vm.config.Some?
    && FlavorDiskSizes(vm.config.value.devices) != []
    && vm.powerState == PoweredOn
  }

  /** `get_instance`. The source never times the power-off poll out, so the
      call returns only if the task settles when the poll is reached. */
  method GetInstance(env: Environment, instanceId: string, conDir: string, fs: set<string>) returns (outcome: Outcome)
    requires ReachesPowerOff(env, instanceId) ==> exists k: nat :: IsTerminal(env.taskStates(k))
    ensures outcome == GetInstanceOutcome(env, instanceId, conDir, fs)
  {
    var found := FindInstanceByUuid(env.find, instanceId);
    if found.Failure? {
      return Outcome(Failure(found.error), fs, []);
    }
    var instance := found.value;
    if instance.config.None? {
      return Outcome(Failure(AttributeError), fs, []);
    }
    var config := instance.config.value;
    var vmDisks := FlavorDisks(config.devices);
    if vmDisks == [] {
      return Outcome(Failure(IndexError), fs, []);
    }
    var flavorInfo := Flavor(FlavorName(config.name), config.memoryMB, config.numCPU, vmDisks[0]);
    var trace: seq<Event> := [];
    if instance.powerState == PoweredOn {
      trace := trace + [PowerOffRequested];
      var _ := AwaitPowerOff(env.taskStates);
    }
    trace := trace + [LeaseRequested];
    var lease, sleeps := GetInstanceLease(env.leaseStates);
    if lease.LeaseUnavailable? {
      return Outcome(Failure(VSphereException(LeaseUnavailableMessage)), fs, trace);
    }
    assert trace == PowerOffActions(instance) + [LeaseRequested];
    assert lease == LeaseReady(sleeps);
    assert GetInstanceOutcome(env, instanceId, conDir, fs) == TransferBlock(env, instance, flavorInfo, conDir, fs, sleeps, trace);
    // The transfer block: every failure in it becomes the same exception.
    if env.leaseStates(sleeps + 1) != Ready {
      return Outcome(Normalised(), fs, trace);
    }
    trace := trace + [HeartbeatStarted];
    var deviceUrls := GetDeviceUrls(env.listing);
    if deviceUrls.None? {
      return Outcome(Normalised(), fs, trace);
    }
    var transferred := TransferDisks(env, instance.name, conDir, Progress(fs, None, [], trace), deviceUrls.value);
    if transferred.Failure? {
      return Outcome(Normalised(), transferred.error.fs, transferred.error.trace);
    }
    var p := transferred.value;
    if !env.completes {
      return Outcome(Normalised(), p.fs, p.trace);
    }
    trace := p.trace + [LeaseCompleted, HeartbeatJoined];
    return Outcome(Success(Migration(instance.name, p.image, flavorInfo, p.volumes)), p.fs, trace);
  }

  // ---------------------------------------------------------------------
  // What a call promises

  /** An unknown UUID raises "Instance not found." before anything else
      happens. */
  lemma UnknownInstanceFails(env: Environment, instanceId: string, conDir: string, fs: set<string>)
    requires env.find(instanceId).None?
    ensures GetInstanceOutcome(env, instanceId, conDir, fs) ==
      Outcome(Failure(VSphereException(InstanceNotFoundMessage)), fs, [])
  {
  }

  /** The VM is found, has a configuration with a disk, and the lease poll
      returned a lease: the call got as far as the transfer block. */
  predicate ReachesTransferBlock(env: Environment, instanceId: string)
  {
    && env.find(instanceId).Some?
    && var vm := env.find(instanceId).value;
    && vm.config.Some?
    && FlavorDiskSizes(vm.config.value.devices) != []
    && PollLease(env.leaseStates).LeaseReady?
  }

  /** The exceptions a call can raise: the lookup's, the two raised while
      reading the flavor, the poll's, and the single normalised one. Once
      the poll returned a lease, every failure is the normalised one,
      whether the lease then reads not `ready`, the device URLs cannot be
      read, a pass fails or the lease cannot be completed. */
  lemma FailuresAreNormalised(env: Environment, instanceId: string, conDir: string, fs: set<string>)
    ensures var o := GetInstanceOutcome(env, instanceId, conDir, fs);
      o.result.Failure? ==>
        o.result.error in {VSphereException(InstanceNotFoundMessage), AttributeError, IndexError,
                           VSphereException(LeaseUnavailableMessage), VSphereException(DownloadFailedMessage)}
    ensures var o := GetInstanceOutcome(env, instanceId, conDir, fs);
      ReachesTransferBlock(env, instanceId) && o.result.Failure? ==>
        o.result.error == VSphereException(DownloadFailedMessage)
    ensures var o := GetInstanceOutcome(env, instanceId, conDir, fs);
      o.result.Failure? && HeartbeatStarted in o.trace ==>
        o.result.error == VSphereException(DownloadFailedMessage)
  {
  }

  /** The actions a call with the lease taken has done before the transfer. */
  function Preamble(vm: Vm): seq<Event>
  {
    PowerOffActions(vm) + [LeaseRequested, HeartbeatStarted]
  }

  /** A result is returned only after the whole sequence ran in order:
      power-off (if the VM was on), lease request, heartbeat start, the
      downloads (each of a path absent before, none twice), then lease
      completion and heartbeat join, as the last two actions. */
  lemma SuccessOrdering(env: Environment, instanceId: string, conDir: string, fs: set<string>)
    requires GetInstanceOutcome(env, instanceId, conDir, fs).result.Success?
    ensures env.find(instanceId).Some?
    ensures var o := GetInstanceOutcome(env, instanceId, conDir, fs);
      var pre := Preamble(env.find(instanceId).value);
      var t := o.trace;
      && |pre| + 2 <= |t|
      && t[..|pre|] == pre
      && t[|t| - 2..] == [LeaseCompleted, HeartbeatJoined]
      && FreshWgets(t[..|t| - 2], |pre|, fs)
  {
    var vm := env.find(instanceId).value;
    var sleeps := PollLease(env.leaseStates).sleeps;
    var urls := GetDeviceUrls(env.listing).value;
    var init := Progress(fs, None, [], Preamble(vm));
    assert init.trace == PowerOffActions(vm) + [LeaseRequested] + [HeartbeatStarted];
    RunWgets(env, vm.name, conDir, init, urls);
    var p := Transfer.Run(env, vm.name, conDir, init, urls).value;
    var t := p.trace + [LeaseCompleted, HeartbeatJoined];
    assert t[..|t| - 2] == p.trace;
  }

  /** What a successful call returns: the VM's name; the flavor of its
      configuration with the first disk as root disk; one volume per
      non-boot device URL, in order, each named `<vm>_vol_<index>` and
      pointing at its converted disk; `image_info` from the last slot-"0"
      URL, `{}` if there is none; every disk on the local file system. */
  lemma SuccessResult(env: Environment, instanceId: string, conDir: string, fs: set<string>)
    requires GetInstanceOutcome(env, instanceId, conDir, fs).result.Success?
    ensures env.find(instanceId).Some? && env.find(instanceId).value.config.Some?
    ensures GetDeviceUrls(env.listing).Some?
    ensures var o := GetInstanceOutcome(env, instanceId, conDir, fs);
      var m := o.result.value;
      var vm := env.find(instanceId).value;
      var config := vm.config.value;
      var urls := GetDeviceUrls(env.listing).value;
      && m.name == vm.name
      && FlavorDiskSizes(config.devices) != []
      && m.flavorInfo == Flavor(FlavorName(config.name), config.memoryMB, config.numCPU, FlavorDiskSizes(config.devices)[0])
      && |m.volumeInfo| == |VolumeUrls(urls)|
      && (forall j :: 0 <= j < |m.volumeInfo| ==> DescribesVolume(env, vm.name, conDir, m.volumeInfo[j], VolumeUrls(urls)[j]))
      && (LastBootUrl(urls).None? ==> m.imageInfo.None?)
      && (LastBootUrl(urls).Some? ==>
            && m.imageInfo.Some?
            && m.imageInfo.value.name == ImageName(vm.name, BootIndex)
            && env.convert(DiskPath(conDir, LastBootUrl(urls).value)) == Some(m.imageInfo.value.localImagePath))
      && o.fs == fs + DiskPaths(conDir, urls)
      && (forall i :: 0 <= i < |urls| ==> PassSucceeds(env, conDir, urls[i]))
      && (forall i :: 0 <= i < |urls| ==> DiskAvailable(env, conDir, fs, urls, i))
  {
    var vm := env.find(instanceId).value;
    var urls := GetDeviceUrls(env.listing).value;
    var init := Progress(fs, None, [], Preamble(vm));
    assert init.trace == PowerOffActions(vm) + [LeaseRequested] + [HeartbeatStarted];
    RunVolumes(env, vm.name, conDir, init, urls);
    RunImage(env, vm.name, conDir, init, urls);
    RunFiles(env, vm.name, conDir, init, urls);
    RunNeedsEveryPass(env, vm.name, conDir, init, urls);
  }

  /** Without a lease that the poll returned and that still reads `ready`
      at the start of the transfer block, the call fails with neither a
      heartbeat nor a download, and the local disk is left as it was. A
      found VM with a disk fails with the poll's exception when the poll
      gives up, and with the normalised one when the lease it returned no
      longer reads `ready`. */
  lemma NoTransferWithoutReadyLease(env: Environment, instanceId: string, conDir: string, fs: set<string>)
    requires PollLease(env.leaseStates).LeaseUnavailable? ||
             env.leaseStates(PollLease(env.leaseStates).sleeps + 1) != Ready
    ensures var o := GetInstanceOutcome(env, instanceId, conDir, fs);
      && o.result.Failure?
      && o.fs == fs
      && HeartbeatStarted !in o.trace
      && forall k :: 0 <= k < |o.trace| ==> !o.trace[k].Wget?
    ensures var o := GetInstanceOutcome(env, instanceId, conDir, fs);
      ReachesTransferBlock(env, instanceId) ==>
        o.result.error == VSphereException(DownloadFailedMessage)
    ensures var o := GetInstanceOutcome(env, instanceId, conDir, fs);
      && env.find(instanceId).Some?
      && env.find(instanceId).value.config.Some?
      && FlavorDiskSizes(env.find(instanceId).value.config.value.devices) != []
      && PollLease(env.leaseStates).LeaseUnavailable? ==>
        o.result.error == VSphereException(LeaseUnavailableMessage)
  {
  }

  /** `_get_device_urls` reads `lease.info.deviceUrl` a second time only
      when the first read raised: when the first read answers, what the
      second would have answered does not matter. */
  lemma DeviceUrlRetryUnused(env: Environment, retry: Option<seq<DeviceUrl>>, instanceId: string,
                             conDir: string, fs: set<string>)
    requires env.listing.first.Some?
    ensures GetInstanceOutcome(env.(listing := env.listing.(retry := retry)), instanceId, conDir, fs) ==
            GetInstanceOutcome(env, instanceId, conDir, fs)
  {
    var env' := env.(listing := env.listing.(retry := retry));
    assert GetDeviceUrls(env'.listing) == GetDeviceUrls(env.listing);
    if ReachesTransferBlock(env, instanceId) {
      var vm := env.find(instanceId).value;
      var config := vm.config.value;
      var flavor := Flavor(FlavorName(config.name), config.memoryMB, config.numCPU, FlavorDiskSizes(config.devices)[0]);
      var requested := PowerOffActions(vm) + [LeaseRequested];
      var sleeps := PollLease(env.leaseStates).sleeps;
      RunUsesOnlyTools(env, env', vm.name, conDir, Progress(fs, None, [], requested + [HeartbeatStarted]),
                       env.listing.first.value);
      assert TransferBlock(env', vm, flavor, conDir, fs, sleeps, requested) ==
             TransferBlock(env, vm, flavor, conDir, fs, sleeps, requested);
    }
  }

  /** When both reads of `lease.info.deviceUrl` raise, the call fails with
      the normalised exception after the heartbeat was started, with no
      download, no file change, no lease completion and no join. */
  lemma NoDeviceUrlsFails(env: Environment, instanceId: string, conDir: string, fs: set<string>)
    requires ReachesTransferBlock(env, instanceId)
    requires env.leaseStates(PollLease(env.leaseStates).sleeps + 1) == Ready
    requires env.listing.first.None? && env.listing.retry.None?
    ensures var o := GetInstanceOutcome(env, instanceId, conDir, fs);
      o == Outcome(Failure(VSphereException(DownloadFailedMessage)), fs,
                   PowerOffActions(env.find(instanceId).value) + [LeaseRequested, HeartbeatStarted])
  {
  }

  /** Whatever the call ends in, a download happens only after the VM was
      found, powered off if it was on, the lease requested and the
      heartbeat started; a failing call's downloads, like a successful
      call's, are each of a path absent before the call, none twice. */
  lemma DownloadsFollowHeartbeat(env: Environment, instanceId: string, conDir: string, fs: set<string>)
    ensures var o := GetInstanceOutcome(env, instanceId, conDir, fs);
      (exists k :: 0 <= k < |o.trace| && o.trace[k].Wget?) ==>
        && env.find(instanceId).Some?
        && var pre := Preamble(env.find(instanceId).value);
        && |pre| <= |o.trace|
        && o.trace[..|pre|] == pre
        && (o.result.Failure? ==> FreshWgets(o.trace, |pre|, fs))
  {
    var o := GetInstanceOutcome(env, instanceId, conDir, fs);
    if env.find(instanceId).Some? && GetDeviceUrls(env.listing).Some? {
      var vm := env.find(instanceId).value;
      var init := Progress(fs, None, [], Preamble(vm));
      assert init.trace == PowerOffActions(vm) + [LeaseRequested] + [HeartbeatStarted];
      RunWgets(env, vm.name, conDir, init, GetDeviceUrls(env.listing).value);
    }
  }

  /** As written, a failure inside the transfer block leaves the lease
      neither completed nor aborted, and the heartbeat thread is never
      joined: the call raises while the heartbeat thread still runs. */
  lemma FailedTransferLeavesHeartbeatRunning(env: Environment, instanceId: string, conDir: string, fs: set<string>)
    ensures var o := GetInstanceOutcome(env, instanceId, conDir, fs);
      o.result.Failure? && HeartbeatStarted in o.trace ==>
        LeaseCompleted !in o.trace && HeartbeatJoined !in o.trace
  {
    var o := GetInstanceOutcome(env, instanceId, conDir, fs);
    if o.result.Failure? && HeartbeatStarted in o.trace {
      var vm := env.find(instanceId).value;
      var init := Progress(fs, None, [], Preamble(vm));
      assert init.trace == PowerOffActions(vm) + [LeaseRequested] + [HeartbeatStarted];
      var urls := GetDeviceUrls(env.listing);
      if urls.Some? {
        var r := Transfer.Run(env, vm.name, conDir, init, urls.value);
        RunWgets(env, vm.name, conDir, init, urls.value);
        var t := TraceAfter(r);
        assert o.trace == t;
        forall k | 0 <= k < |t|
          ensures t[k] != LeaseCompleted && t[k] != HeartbeatJoined
        {
          if k < |init.trace| {
            assert t[k] == init.trace[k];
          }
        }
      }
    }
  }

  /** Two environments that agree on everything a pass of the loop
      consults: `urlparse`, the real host, wget, the converter and
      qemu-img. */
  ghost predicate SameTools(env: Environment, env': Environment)
  {
    && env.host == env'.host
    && (forall url :: env.parse(url) == env'.parse(url))
    && (forall url, path :: env.fetch(url, path) == env'.fetch(url, path))
    && (forall path :: env.convert(path) == env'.convert(path))
    && (forall path :: env.inspect(path) == env'.inspect(path))
  }

  /** One pass of the loop consults nothing but those tools. */
  lemma StepUsesOnlyTools(env: Environment, env': Environment, vmName: string,
                          conDir: string, p: Progress, u: DeviceUrl)
    requires SameTools(env, env')
    ensures Step(env', vmName, conDir, p, u) == Step(env, vmName, conDir, p, u)
  {
    var path := DiskPath(conDir, u);
    assert GetInstanceDisk(env', p.fs, u.url, path) == GetInstanceDisk(env, p.fs, u.url, path);
  }

  /** Nor does the loop: in particular it never reads the power-off task,
      the lease state or the device-URL listing. */
  lemma {:induction false} RunUsesOnlyTools(env: Environment, env': Environment, vmName: string,
                                            conDir: string, init: Progress, urls: seq<DeviceUrl>)
    requires SameTools(env, env')
    ensures Transfer.Run(env', vmName, conDir, init, urls) == Transfer.Run(env, vmName, conDir, init, urls)
    decreases |urls|
  {
    if urls != [] {
      var prefix := urls[..|urls| - 1];
      RunUsesOnlyTools(env, env', vmName, conDir, init, prefix);
      var r0 := Transfer.Run(env, vmName, conDir, init, prefix);
      if r0.Success? {
        StepUsesOnlyTools(env, env', vmName, conDir, r0.value, urls[|urls| - 1]);
      }
    }
  }

  /** The transfer block never looks at the power-off task. */
  lemma TransferBlockIgnoresTaskStates(env: Environment, taskStates: nat -> TaskState, vm: Vm, flavor: Flavor,
                                       conDir: string, fs: set<string>, sleeps: nat, trace: seq<Event>)
    ensures TransferBlock(env.(taskStates := taskStates), vm, flavor, conDir, fs, sleeps, trace) ==
            TransferBlock(env, vm, flavor, conDir, fs, sleeps, trace)
  {
    var urls := GetDeviceUrls(env.listing);
    if urls.Some? {
      RunUsesOnlyTools(env, env.(taskStates := taskStates), vm.name, conDir,
                       Progress(fs, None, [], trace + [HeartbeatStarted]), urls.value);
    }
  }

  /** How the power-off task ends does not matter: of two calls whose
      power-off polls both settle, one on success and one on error, or
      after different numbers of reads, both go on the same way. */
  lemma PowerOffOutcomeIgnored(env: Environment, taskStates: nat -> TaskState, instanceId: string,
                               conDir: string, fs: set<string>)
    requires ReachesPowerOff(env, instanceId) ==>
      (exists k: nat :: IsTerminal(env.taskStates(k))) && (exists k: nat :: IsTerminal(taskStates(k)))
    ensures GetInstanceOutcome(env.(taskStates := taskStates), instanceId, conDir, fs) ==
            GetInstanceOutcome(env, instanceId, conDir, fs)
  {
    var vm := env.find(instanceId);
    var poll := PollLease(env.leaseStates);
    if vm.Some? && vm.value.config.Some? && poll.LeaseReady? {
      var config := vm.value.config.value;
      var vmDisks := FlavorDiskSizes(config.devices);
      if vmDisks != [] {
        var flavor := Flavor(FlavorName(config.name), config.memoryMB, config.numCPU, vmDisks[0]);
        TransferBlockIgnoresTaskStates(env, taskStates, vm.value, flavor, conDir, fs, poll.sleeps,
                                       PowerOffActions(vm.value) + [LeaseRequested]);
      }
    }
  }

  /** A powered-on VM is powered off first, and once the power-off task
      settles the lease is requested right after, whatever the task
      reported. */
  lemma LeaseRequestedAfterPowerOff(env: Environment, instanceId: string, conDir: string, fs: set<string>)
    requires ReachesPowerOff(env, instanceId)
    requires exists k: nat :: IsTerminal(env.taskStates(k))
    ensures var t := GetInstanceOutcome(env, instanceId, conDir, fs).trace;
      |t| >= 2 && t[0] == PowerOffRequested && t[1] == LeaseRequested
  {
    var vm := env.find(instanceId).value;
    var poll := PollLease(env.leaseStates);
    if poll.LeaseReady? && env.leaseStates(poll.sleeps + 1) == Ready {
      var urls := GetDeviceUrls(env.listing);
      if urls.Some? {
        var init := Progress(fs, None, [], Preamble(vm));
        assert init.trace == [PowerOffRequested, LeaseRequested, HeartbeatStarted];
        assert init.trace == PowerOffActions(vm) + [LeaseRequested] + [HeartbeatStarted];
        RunWgets(env, vm.name, conDir, init, urls.value);
        var t := TraceAfter(Transfer.Run(env, vm.name, conDir, init, urls.value));
        assert t[..3] == init.trace;
        assert t[0] == PowerOffRequested && t[1] == LeaseRequested by {
          assert t[0] == t[..3][0] && t[1] == t[..3][1];
        }
        var config := vm.config.value;
        var flavor := Flavor(FlavorName(config.name), config.memoryMB, config.numCPU, FlavorDiskSizes(config.devices)[0]);
        var o := GetInstanceOutcome(env, instanceId, conDir, fs);
        assert o == TransferBlock(env, vm, flavor, conDir, fs, poll.sleeps, PowerOffActions(vm) + [LeaseRequested]);
        assert o.trace == t || o.trace == t + [LeaseCompleted, HeartbeatJoined];
      }
    }
  }
}
