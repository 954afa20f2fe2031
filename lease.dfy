/** Taking the export lease: the bounded readiness poll of
    `_get_instance_lease` and the device-URL read of `_get_device_urls`. */
module Lease {
  import opened Wrappers
  import opened Entities

  /** The poll gives up when its counter reaches this value. */
  const LeaseRetryLimit: nat := 5

  /** The message (misspelling included) raised when the lease never
      becomes ready. */
  const LeaseUnavailableMessage := "Unable to take lease on sorce instance."

  /** How a poll ends: ready after `sleeps` sleeps (so after `sleeps + 1`
      reads of the state), or given up. */
  datatype LeasePoll = LeaseReady(sleeps: nat) | LeaseUnavailable

  /** The poll from counter value `count` on; read number `count` of the
      lease state is `states(count)`. */
  function PollLeaseFrom(states: nat -> LeaseState, count: nat): LeasePoll
    requires count <= LeaseRetryLimit
    decreases LeaseRetryLimit - count
  {
    if states(count) == Ready then LeaseReady(count)
    else if count == LeaseRetryLimit then LeaseUnavailable
    else PollLeaseFrom(states, count + 1)
  }

  function PollLease(states: nat -> LeaseState): LeasePoll
  {
    PollLeaseFrom(states, 0)
  }

  /** How many times `time.sleep(5)` runs during the poll. */
  function Sleeps(poll: LeasePoll): nat
  {
    match poll
    case LeaseReady(n) => n
    case LeaseUnavailable => LeaseRetryLimit
  }

  /** `_get_instance_lease` after `ExportVm()`: the counter loop over
      successive reads of `lease.state`. */
  method GetInstanceLease(states: nat -> LeaseState) returns (outcome: LeasePoll, sleeps: nat)
    ensures outcome == PollLease(states)
    ensures sleeps == Sleeps(outcome)
  {
    var count := 0;
    while states(count) != Ready
      invariant count <= LeaseRetryLimit
      invariant PollLeaseFrom(states, count) == PollLease(states)
      decreases LeaseRetryLimit - count
    {
      if count == LeaseRetryLimit {
        return LeaseUnavailable, count;
      }
      count := count + 1;
    }
    return LeaseReady(count), count;
  }

  lemma {:induction false} PollLeaseFromSpec(states: nat -> LeaseState, count: nat)
    requires count <= LeaseRetryLimit
    ensures PollLeaseFrom(states, count).LeaseReady? ==>
      var n := PollLeaseFrom(states, count).sleeps;
      count <= n <= LeaseRetryLimit && states(n) == Ready &&
      forall j :: count <= j < n ==> states(j) != Ready
    ensures PollLeaseFrom(states, count).LeaseUnavailable? <==>
      forall j :: count <= j <= LeaseRetryLimit ==> states(j) != Ready
    decreases LeaseRetryLimit - count
  {
    if states(count) != Ready && count < LeaseRetryLimit {
      PollLeaseFromSpec(states, count + 1);
    }
  }

  /** The poll returns a lease only once a read shows it `ready`: after
      exactly `n` sleeps where read `n` (n <= 5) is the first ready one.
      It gives up exactly when none of the 6 reads 0..5 is ready, after 5
      sleeps. */
  lemma PollLeaseSpec(states: nat -> LeaseState)
    ensures PollLease(states).LeaseReady? ==>
      var n := PollLease(states).sleeps;
      n <= LeaseRetryLimit && states(n) == Ready && Sleeps(PollLease(states)) == n &&
      forall j :: 0 <= j < n ==> states(j) != Ready
    ensures PollLease(states).LeaseUnavailable? <==>
      forall j :: 0 <= j <= LeaseRetryLimit ==> states(j) != Ready
    ensures PollLease(states).LeaseUnavailable? ==> Sleeps(PollLease(states)) == LeaseRetryLimit
  {
    PollLeaseFromSpec(states, 0);
  }

  /** `_get_device_urls`: the first read of `lease.info.deviceUrl`; only if
      it raised IndexError, a second read after `time.sleep(2)`, whose own
      IndexError (None) propagates. */
  function GetDeviceUrls(listing: DeviceUrlListing): (r: Option<seq<DeviceUrl>>)
    ensures listing.first.Some? ==> r == listing.first
    ensures listing.first.None? ==> r == listing.retry
    ensures r.None? <==> listing.first.None? && listing.retry.None?
  {
    match listing.first
    case Some(urls) => Some(urls)
    case None => listing.retry
  }
}
