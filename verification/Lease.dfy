/**
 The tenant write lease of src/coordination/fileLeaseCoordinator.js.

 A tenant has one lease directory and one persistent fencing counter. Creating the directory,
 advancing the counter and writing the owner file form one step, as do taking over a stale
 directory and checking-then-removing it on release. The functions below are those steps; the
 classes run them as the coordinator does, and WriteProtocol interleaves them.
 */
module Lease {
  import opened Prelude

  datatype Identity = Identity(owner: string, token: nat)

  datatype OwnerRecord = OwnerRecord(id: Identity, expiresAt: int)

  /** The lease directory: missing, left without an owner file by a crash, or owned. */
  datatype Directory = Absent | Ownerless(since: int) | Owned(record: OwnerRecord)

  datatype Disk = Disk(dir: Directory, fence: nat)

  predicate IsExpired(record: OwnerRecord, now: int) {
    record.expiresAt <= now
  }

  predicate SameLease(dir: Directory, id: Identity) {
    dir.Owned? && dir.record.id == id
  }

  /** The test behind a handle's `assertValid`. */
  predicate Holds(dir: Directory, id: Identity, now: int) {
    SameLease(dir, id) && !IsExpired(dir.record, now)
  }

  predicate IsStale(dir: Directory, now: int, leaseMs: nat) {
    match dir
    case Absent => false
    case Ownerless(since) => now - since >= leaseMs
    case Owned(record) => IsExpired(record, now)
  }

  function Take(disk: Disk, owner: string, now: int, leaseMs: nat): Disk {
    var token := disk.fence + 1;
    Disk(Owned(OwnerRecord(Identity(owner, token), now + leaseMs)), token)
  }

  function Evict(disk: Disk): Disk {
    disk.(dir := Absent)
  }

  function Renew(disk: Disk, id: Identity, now: int, leaseMs: nat): Disk {
    if Holds(disk.dir, id, now) then disk.(dir := Owned(OwnerRecord(id, now + leaseMs))) else disk
  }

  function Drop(disk: Disk, id: Identity): Disk {
    if SameLease(disk.dir, id) then disk.(dir := Absent) else disk
  }

  datatype AcquireResult = Acquired(handle: LeaseHandle) | Busy

  /** One process's view of the coordinator: the shared directory, and the clock it reads. */
  class FileLeaseCoordinator {
    const ownerId: string
    const leaseMs: nat
    const retryMs: nat
    var disk: Disk
    var clock: int

    ghost predicate Valid()
      reads this
    {
      leaseMs >= 1000 && retryMs >= 1
    }

    constructor (ownerId: string, leaseMs: nat, retryMs: nat, disk: Disk, clock: int)
      requires leaseMs >= 1000 && retryMs >= 1
      ensures Valid() && this.disk == disk && this.clock == clock
      ensures this.ownerId == ownerId && this.leaseMs == leaseMs && this.retryMs == retryMs
    {
      this.ownerId := ownerId;
      this.leaseMs := leaseMs;
      this.retryMs := retryMs;
      this.disk := disk;
      this.clock := clock;
    }

    /** Nobody else acts meanwhile: the lease is won exactly when the directory is free or turns
        stale by the deadline, at the first poll that sees it, and then always under a new token. */
    method Acquire(timeoutMs: nat) returns (result: AcquireResult)
      requires Valid()
      modifies this`disk, this`clock
      ensures Valid()
      ensures old(clock) <= clock <= old(clock) + timeoutMs
      ensures result.Acquired? <==>
              old(disk).dir.Absent? || IsStale(old(disk).dir, old(clock) + timeoutMs, leaseMs)
      ensures result.Acquired? ==>
                && disk == Take(Evict(old(disk)), ownerId, clock, leaseMs)
                && (clock == old(clock) || !IsStale(old(disk).dir, clock - retryMs, leaseMs))
                && fresh(result.handle) && result.handle.coordinator == this
                && !result.handle.released
                && result.handle.id == Identity(ownerId, old(disk).fence + 1)
                && Holds(disk.dir, result.handle.id, clock)
      ensures result.Acquired? <==>
              match old(disk).dir
              case Absent => true
              case Ownerless(since) => since + leaseMs <= old(clock) + timeoutMs
              case Owned(record) => record.expiresAt <= old(clock) + timeoutMs
      ensures result.Acquired? ==>
                disk == Disk(Owned(OwnerRecord(result.handle.id, clock + leaseMs)), old(disk).fence + 1)
      ensures result.Busy? ==> disk == old(disk) && clock == old(clock) + timeoutMs
    {
      var deadline := clock + timeoutMs;
      while true
        invariant Valid()
        invariant old(clock) <= clock <= deadline
        invariant disk == old(disk) || (disk == Evict(old(disk)) && IsStale(old(disk).dir, clock, leaseMs))
        invariant clock == old(clock) || (!old(disk).dir.Absent? && !IsStale(old(disk).dir, clock - retryMs, leaseMs))
        decreases deadline - clock, if disk.dir.Absent? then 0 else 1
      {
        if disk.dir.Absent? {
          disk := Take(disk, ownerId, clock, leaseMs);
          var handle := new LeaseHandle(this, disk.dir.record.id);
          return Acquired(handle);
        } else if IsStale(disk.dir, clock, leaseMs) {
          disk := Evict(disk);
        } else if clock >= deadline {
          return Busy;
        } else {
          var remaining := deadline - clock;
          clock := clock + if retryMs < remaining then retryMs else remaining;
        }
      }
    }
  }

  class LeaseHandle {
    const coordinator: FileLeaseCoordinator
    const id: Identity
    var released: bool

    constructor (coordinator: FileLeaseCoordinator, id: Identity)
      ensures this.coordinator == coordinator && this.id == id && !released
    {
      this.coordinator := coordinator;
      this.id := id;
      this.released := false;
    }

    /** Returns normally (true) or throws that the lease was lost (false). */
    method AssertValid() returns (ok: bool)
      ensures ok <==> !released && Holds(coordinator.disk.dir, id, coordinator.clock)
      ensures ok <==> && !released && coordinator.disk.dir.Owned? && coordinator.disk.dir.record.id == id
                      && coordinator.clock < coordinator.disk.dir.record.expiresAt
    {
      if released {
        return false;
      }
      ok := Holds(coordinator.disk.dir, id, coordinator.clock);
    }

    method Heartbeat() returns (ok: bool)
      requires coordinator.Valid()
      modifies coordinator`disk
      ensures coordinator.Valid()
      ensures ok <==> !released && old(Holds(coordinator.disk.dir, id, coordinator.clock))
      ensures coordinator.disk == if ok then Renew(old(coordinator.disk), id, coordinator.clock, coordinator.leaseMs)
                                  else old(coordinator.disk)
      ensures ok ==>
                && coordinator.disk.dir == Owned(OwnerRecord(id, coordinator.clock + coordinator.leaseMs))
                && coordinator.disk.fence == old(coordinator.disk).fence
      ensures ok ==>
                && Holds(coordinator.disk.dir, id, coordinator.clock + coordinator.leaseMs - 1)
                && !Holds(coordinator.disk.dir, id, coordinator.clock + coordinator.leaseMs)
                && IsStale(coordinator.disk.dir, coordinator.clock + coordinator.leaseMs, coordinator.leaseMs)
    {
      ok := AssertValid();
      if ok {
        coordinator.disk := Renew(coordinator.disk, id, coordinator.clock, coordinator.leaseMs);
        ok := AssertValid();
      }
    }

    /** Removes the directory only while it still carries this lease; a second release does nothing. */
    method Release() returns (removed: bool)
      modifies this`released, coordinator`disk
      ensures released
      ensures removed <==> !old(released) && SameLease(old(coordinator.disk).dir, id)
      ensures coordinator.disk == if old(released) then old(coordinator.disk) else Drop(old(coordinator.disk), id)
      ensures !SameLease(old(coordinator.disk).dir, id) ==> coordinator.disk == old(coordinator.disk)
      ensures removed ==> coordinator.disk == Disk(Absent, old(coordinator.disk).fence)
    {
      if released {
        return false;
      }
      released := true;
      removed := SameLease(coordinator.disk.dir, id);
      if removed {
        coordinator.disk := Drop(coordinator.disk, id);
      }
    }
  }

  /** A heartbeat buys its owner exactly one lease time: a rival gets the lease if and only if it polls for that
      long. */
  method RivalAfterHeartbeat(handle: LeaseHandle, rival: string, retryMs: nat, timeoutMs: nat)
    returns (held: bool, result: AcquireResult)
    requires handle.coordinator.Valid() && retryMs >= 1
    modifies handle.coordinator`disk
    ensures held ==> (result.Acquired? <==> timeoutMs >= handle.coordinator.leaseMs)
  {
    held := handle.Heartbeat();
    var mine := handle.coordinator;
    var theirs := new FileLeaseCoordinator(rival, mine.leaseMs, retryMs, mine.disk, mine.clock);
    result := theirs.Acquire(timeoutMs);
  }
}
