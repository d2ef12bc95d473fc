/** Exclusive mutation authority over a dataset (control_plane/dataset_lease.py) and its governed recovery
    (control_plane/dataset_lease_recovery.py). */
module DatasetLease {
  import opened Common

  datatype Lease = Lease(owner: string, runId: int, version: int, acquiredAt: int, deadline: int)

  datatype LeaseError =
    | MissingIdentity
    | DeadlineNotInFuture
    | AlreadyClaimed
    | ChangedBeforeRelease
    | NothingToRecover
    | IdentityChanged
    | TooEarly

  /** What an operator presents to recover a lease. */
  datatype Recovery = Recovery(owner: string, runId: int, version: int, recoveredBy: string, reason: string, proof: string)

  datatype RecoveryEvent = RecoveryEvent(dataset: string, lease: Lease, evidence: Recovery, recoveredAt: int)

  /** The stored claim of one dataset after an attempt to acquire it. */
  function AcquireRow(
      current: Option<Lease>, owner: string, runId: int, now: int, deadline: int): Result<Lease, LeaseError> {
    if owner == "" then Err(MissingIdentity)
    else if deadline <= now then Err(DeadlineNotInFuture)
    else if current.Some? then Err(AlreadyClaimed)
    else Ok(Lease(owner, runId, 1, now, deadline))
  }

  predicate SameClaim(a: Lease, b: Lease) {
    a.owner == b.owner && a.runId == b.runId && a.version == b.version
  }

  /** The delete is conditional on the identity of the claim and must hit one row. */
  function ReleaseRow(current: Option<Lease>, lease: Lease): Option<LeaseError> {
    if current.Some? && SameClaim(current.value, lease) then None else Some(ChangedBeforeRelease)
  }

  function RecoverRow(current: Option<Lease>, r: Recovery, now: int): Result<Lease, LeaseError> {
    if r.version < 1 || r.owner == "" || r.recoveredBy == "" || r.reason == "" || r.proof == "" then Err(MissingIdentity)
    else if current.None? then Err(NothingToRecover)
    else if current.value.owner != r.owner || current.value.runId != r.runId || current.value.version != r.version then Err(IdentityChanged)
    else if now < current.value.deadline then Err(TooEarly)
    else Ok(current.value)
  }

  class LeaseTable {
    var claims: map<string, Lease>
    var recoveries: seq<RecoveryEvent>

    constructor ()
      ensures claims == map[] && recoveries == []
    {
      claims := map[];
      recoveries := [];
    }

    function Read(dataset: string): Option<Lease>
      reads this
    {
      Find(claims, dataset)
    }

    method Acquire(dataset: string, owner: string, runId: int, now: int, deadline: int)
      returns (r: Result<Lease, LeaseError>)
      modifies this
      ensures r == if dataset == "" then Err(MissingIdentity) else AcquireRow(old(Read(dataset)), owner, runId, now, deadline)
      ensures r.Ok? <==> dataset != "" && owner != "" && now < deadline && dataset !in old(claims)
      ensures r.Ok? ==>
                && r.value.owner == owner && r.value.runId == runId && r.value.version == 1
                && r.value.acquiredAt == now && r.value.deadline == deadline
      ensures claims == if r.Ok? then old(claims)[dataset := r.value] else old(claims)
      ensures recoveries == old(recoveries)
    {
      if dataset == "" || owner == "" {
        return Err(MissingIdentity);
      }
      if deadline <= now {
        return Err(DeadlineNotInFuture);
      }
      if dataset in claims {
        return Err(AlreadyClaimed);
      }
      var lease := Lease(owner, runId, 1, now, deadline);
      claims := claims[dataset := lease];
      r := Ok(lease);
    }

    method Release(dataset: string, lease: Lease) returns (error: Option<LeaseError>)
      modifies this
      ensures error == ReleaseRow(old(Read(dataset)), lease)
      ensures error.None? <==>
                && dataset in old(claims) && old(claims)[dataset].owner == lease.owner
                && old(claims)[dataset].runId == lease.runId && old(claims)[dataset].version == lease.version
      ensures claims == if error.None? then old(claims) - {dataset} else old(claims)
      ensures recoveries == old(recoveries)
    {
      if dataset !in claims || !SameClaim(claims[dataset], lease) {
        return Some(ChangedBeforeRelease);
      }
      claims := claims - {dataset};
      error := None;
    }

    /** The event is appended and the claim deleted in one transaction. */
    method Recover(dataset: string, evidence: Recovery, now: int) returns (r: Result<Lease, LeaseError>)
      modifies this
      ensures r == if dataset == "" then Err(MissingIdentity) else RecoverRow(old(Read(dataset)), evidence, now)
      ensures r.Ok? <==>
                && dataset != "" && evidence.owner != "" && evidence.version >= 1
                && evidence.recoveredBy != "" && evidence.reason != "" && evidence.proof != ""
                && dataset in old(claims) && old(claims)[dataset].owner == evidence.owner
                && old(claims)[dataset].runId == evidence.runId && old(claims)[dataset].version == evidence.version
                && old(claims)[dataset].deadline <= now
      ensures r.Ok? ==> r.value == old(claims)[dataset]
      ensures claims == if r.Ok? then old(claims) - {dataset} else old(claims)
      ensures recoveries ==
              if r.Ok? then old(recoveries) + [RecoveryEvent(dataset, r.value, evidence, now)] else old(recoveries)
    {
      if evidence.version < 1 {
        return Err(MissingIdentity);
      }
      if dataset == "" || evidence.owner == "" || evidence.recoveredBy == "" || evidence.reason == "" || evidence.proof == "" {
        return Err(MissingIdentity);
      }
      if dataset !in claims {
        return Err(NothingToRecover);
      }
      var lease := claims[dataset];
      if lease.owner != evidence.owner || lease.runId != evidence.runId || lease.version != evidence.version {
        return Err(IdentityChanged);
      }
      if now < lease.deadline {
        return Err(TooEarly);
      }
      recoveries := recoveries + [RecoveryEvent(dataset, lease, evidence, now)];
      claims := claims - {dataset};
      r := Ok(lease);
    }
  }
}
