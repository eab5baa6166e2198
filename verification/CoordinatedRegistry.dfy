/**
 One process's `read` and `write` in src/coordination/coordinatedRegistry.js, undisturbed by others.
 WriteProtocol interleaves the same steps between processes.
 */
module CoordinatedRegistry {
  import opened Prelude
  import opened Lease
  import opened FencedStore

  datatype WriteResult = Done(snapshot: Snapshot) | CoordinationBusy | CoordinationLost | FenceRefused

  /** What a load finds: the newest version, or the unfenced base snapshot. */
  ghost function Current(versions: Versions, base: Snapshot): Snapshot {
    var newest := Newest(versions.Keys);
    if newest.None? then base else versions[newest.value]
  }

  class Registry {
    const coordinator: FileLeaseCoordinator
    const store: FencedSnapshotStore

    ghost predicate Valid()
      reads coordinator, store
    {
      coordinator.Valid() && store.Valid()
    }

    constructor (coordinator: FileLeaseCoordinator, store: FencedSnapshotStore)
      requires coordinator.Valid() && store.Valid()
      ensures Valid() && this.coordinator == coordinator && this.store == store
    {
      this.coordinator := coordinator;
      this.store := store;
    }

    method Load() returns (snapshot: Snapshot)
      ensures snapshot == Current(store.versions, store.base)
    {
      snapshot := store.ReadEncrypted();
    }

    /** The operation loads, appends `edit`, saves, and takes `durationMs`. It is acknowledged exactly
        when its save was accepted and the lease outlived it; a lost lease still leaves the save on disk,
        and every way out releases the lease. */
    method WriteEdit(timeoutMs: nat, edit: nat, durationMs: nat) returns (result: WriteResult)
      requires Valid()
      modifies coordinator`disk, coordinator`clock, store`versions
      ensures Valid()
      ensures result.CoordinationBusy? ==>
                coordinator.disk == old(coordinator.disk) && store.versions == old(store.versions)
      ensures result.CoordinationBusy? <==>
              !old(coordinator.disk).dir.Absent?
              && !IsStale(old(coordinator.disk).dir, old(coordinator.clock) + timeoutMs, coordinator.leaseMs)
      ensures !result.CoordinationBusy? ==> coordinator.disk == Disk(Absent, old(coordinator.disk).fence + 1)
      ensures result.FenceRefused? ==>
                && store.versions == old(store.versions)
                && exists t :: t in store.versions && old(coordinator.disk).fence + 1 < t
      ensures result.Done? || result.CoordinationLost? ==>
                store.versions ==
                Kept(old(store.versions)[old(coordinator.disk).fence + 1 :=
                       Current(old(store.versions), store.base) + [edit]], store.keep)
      ensures result.Done? ==> result.snapshot == Current(store.versions, store.base)
      ensures result.Done? ==> durationMs < coordinator.leaseMs
      ensures result.CoordinationLost? ==> coordinator.leaseMs <= durationMs
    {
      var acquired := coordinator.Acquire(timeoutMs);
      if acquired.Busy? {
        return CoordinationBusy;
      }
      var lease := acquired.handle;
      var entered := lease.AssertValid();
      var held := lease.AssertValid();
      assert entered && held;
      var snapshot := Load();
      var next := snapshot + [edit];
      var saved := store.Save(lease.id.token, next);
      coordinator.clock := coordinator.clock + durationMs;
      if saved.FenceRejected? {
        result := FenceRefused;
      } else {
        var checked := lease.AssertValid();
        var confirmed := lease.AssertValid();
        if checked && confirmed {
          NewestUnique(lease.id.token, store.versions.Keys);
          result := Done(next);
        } else {
          result := CoordinationLost;
        }
      }
      var removed := lease.Release();
    }
  }
}
