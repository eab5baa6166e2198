/**
 The scan-job outbox of src/evidence/externalScanJobOutbox.js and the janitor of
 src/evidence/externalScanJobLifecycle.js. Every operation runs under the outbox lock and reads the
 clock once. The ghost log records each disk operation as it happens and stays legal, so a crash
 inside any method leaves what some legal log reaches.
 */
module ScanJobOutbox {
  import opened Prelude
  import opened ScanJobs
  import opened ScanJobFiles
  import opened Retention
  import opened ScanJobEffects

  class Outbox {
    const limits: Limits
    var files: Files
    ghost var log: seq<DiskOp>
    ghost var ledger: Ledger

    ghost predicate Valid()
      reads this
    {
      && ValidLimits(limits)
      && Recorded(limits, log, ledger) && ledger.world.files == files
      && WellPlaced(files)
    }

    ghost function Issued(): set<nat>
      reads this
    {
      ledger.world.issued
    }

    /** The jobs removed so far while their record did not say the state of its directory. */
    ghost function Losses(): multiset<nat>
      reads this
    {
      ledger.lost
    }

    /** Attaches to whatever earlier runs, crashed or not, left on disk. */
    constructor (limits: Limits, files: Files, ghost log: seq<DiskOp>)
      requires ValidLimits(limits) && Legal(limits, log) && Reached(limits, log).files == files
      ensures Valid() && this.limits == limits && this.files == files && this.log == log
      ensures Losses() == Lost(limits, log) && Issued() == Reached(limits, log).issued
    {
      ReachedInv(limits, log);
      this.limits := limits;
      this.files := files;
      this.log := log;
      this.ledger := Ledger(Reached(limits, log), Lost(limits, log), Strays(log));
    }

    ghost method Record(op: DiskOp)
      requires ValidLimits(limits) && Recorded(limits, log, ledger) && OpAllowed(limits, ledger.world, op)
      requires files == Apply(limits, ledger.world, op).files
      modifies this`log, this`ledger
      ensures Valid() && log == old(log) + [op] && ledger == Entered(limits, old(ledger), op)
    {
      RecordedStep(limits, log, ledger, op);
      log := log + [op];
      ledger := Entered(limits, ledger, op);
      RecordedInv(limits, log, ledger);
    }

    // ----- single disk operations -----

    method WriteRecord(slot: Slot, event: Event)
      requires Valid()
      requires slot in files && files[slot].state == slot.dir && Allowed(files[slot], event)
      requires event.Claimed? ==> event.token !in Issued()
      modifies this`files, this`log, this`ledger
      ensures Valid() && log == old(log) + [Rewrite(slot, event)]
      ensures files == old(files)[slot := Changed(limits, old(files)[slot], event)]
      ensures Issued() == old(Issued()) + (if event.Claimed? then {event.token} else {})
      ensures Losses() == old(Losses()) && ledger.strays == old(ledger.strays) + Strayed(Rewrite(slot, event))
    {
      files := files[slot := Changed(limits, files[slot], event)];
      Record(Rewrite(slot, event));
    }

    method RenameRecord(slot: Slot)
      requires Valid() && slot in files && files[slot].state != slot.dir
      modifies this`files, this`log, this`ledger
      ensures Valid() && log == old(log) + [Rename(slot)] && Issued() == old(Issued()) && Losses() == old(Losses())
      ensures files == Moved(old(files), slot) && ledger.strays == old(ledger.strays) - Returned(Rename(slot))
      ensures forall id :: Find(files, id) ==
                           if id == slot.id then Some(Place(old(files)[slot].state, old(files)[slot]))
                             else old(Find(files, id))
    {
      MovedFind(files, slot);
      files := Moved(files, slot);
      Record(Rename(slot));
    }

    method RemoveFile(slot: Slot)
      requires Valid() && slot in files && (slot.dir.Completed? || slot.dir.DeadLetter?)
      modifies this`files, this`log, this`ledger
      ensures Valid() && log == old(log) + [Remove(slot)] && Issued() == old(Issued())
      ensures files == old(files) - {slot}
      ensures ledger.strays == old(ledger.strays)
      ensures forall id :: Find(files, id) == if id == slot.id then None else old(Find(files, id))
    {
      RemovedFind(files, slot);
      files := files - {slot};
      Record(Remove(slot));
    }

    /** `writeAndMove`: rewrite in place, then rename into the new state's directory. */
    method WriteAndMove(slot: Slot, event: Event) returns (job: Job)
      requires Valid()
      requires slot in files && files[slot].state == slot.dir && Allowed(files[slot], event)
      requires event.Claimed? ==> event.token !in Issued()
      modifies this`files, this`log, this`ledger
      ensures Valid() && job == Changed(limits, old(files)[slot], event)
      ensures job.id == slot.id && job.state != slot.dir
      ensures log == old(log) + [Rewrite(slot, event), Rename(slot)]
      ensures Issued() == old(Issued()) + (if event.Claimed? then {event.token} else {})
      ensures forall id :: Find(files, id) ==
                           if id == slot.id then Some(Place(job.state, job)) else old(Find(files, id))
      ensures Losses() == old(Losses()) && ledger.strays == old(ledger.strays)
    {
      RecordedInv(limits, log, ledger);
      ChangeKeepsJobInv(limits, files[slot], event);
      job := Changed(limits, files[slot], event);
      RewrittenFind(files, slot, job);
      WriteRecord(slot, event);
      RenameRecord(slot);
    }

    // ----- maintenance -----

    method ReconcileDirectory(dir: State) returns (moved: nat)
      requires Valid()
      modifies this`files, this`log, this`ledger
      ensures Valid() && Issued() == old(Issued()) && Losses() == old(Losses())
      ensures old(log) <= log && |log| == old(|log|) + moved
      ensures forall id :: Find(files, id) == Settled([dir], old(Find(files, id)))
      ensures !dir.DeadLetter? ==> ledger.strays == old(ledger.strays)
      ensures moved == 0 <==> old(SettledIn(files, dir))
      ensures moved == 0 ==> files == old(files)
    {
      var names := ReadSorted(IdsIn(files, dir));
      ghost var before := files;
      moved := 0;
      var i := 0;
      while i < |names|
        invariant Valid() && Issued() == old(Issued()) && Losses() == old(Losses())
        invariant i <= |names| && old(log) <= log && |log| == old(|log|) + moved
        invariant SettledUpTo(before, files, dir, names, i)
        invariant !dir.DeadLetter? ==> ledger.strays == old(ledger.strays)
        invariant moved == 0 ==> files == before
        invariant moved == 0 <==> forall k ::
                    0 <= k < i ==> Slot(dir, names[k]) in before && before[Slot(dir, names[k])].state == dir
      {
        var slot := Slot(dir, names[i]);
        NextSlot(before, files, dir, names, i);
        ghost var was := files;
        if files[slot].state != dir {
          RenameRecord(slot);
          moved := moved + 1;
        }
        SettleNext(before, was, files, dir, names, i);
        i := i + 1;
      }
      SettledAll(before, files, dir, names);
    }

    /** `reconcileLocationsLocked`. Over all directories it puts every record where its state says;
        it moves something if and only if something is out of place. */
    method Reconcile(sources: seq<State>) returns (moved: nat)
      requires Valid()
      modifies this`files, this`log, this`ledger
      ensures Valid() && Issued() == old(Issued()) && Losses() == old(Losses())
      ensures old(log) <= log && |log| == old(|log|) + moved
      ensures forall id :: Find(files, id) == Settled(sources, old(Find(files, id)))
      ensures DeadLetter !in sources ==> ledger.strays == old(ledger.strays)
      ensures forall dir :: dir in sources ==> SettledIn(files, dir)
      ensures moved == 0 <==> old(SettledInAll(files, sources))
      ensures moved == 0 ==> files == old(files)
    {
      ghost var before := files;
      moved := 0;
      var k := 0;
      while k < |sources|
        invariant Valid() && Issued() == old(Issued()) && Losses() == old(Losses())
        invariant k <= |sources| && old(log) <= log && |log| == old(|log|) + moved
        invariant Reconciled(before, files, sources[..k])
        invariant DeadLetter !in sources ==> ledger.strays == old(ledger.strays)
        invariant moved == 0 <==> SettledInAll(before, sources[..k])
        invariant moved == 0 ==> files == before
      {
        ghost var was := files;
        var more := ReconcileDirectory(sources[k]);
        ReconciledMore(before, was, files, sources, k);
        SettledInMore(before, sources, k);
        moved := moved + more;
        k := k + 1;
      }
      assert sources[..k] == sources;
      SettledAfter(sources, before, files);
    }

    method RemoveRows(dir: State, rows: seq<nat>)
      requires Valid() && (dir.Completed? || dir.DeadLetter?)
      requires forall i :: 0 <= i < |rows| ==> Slot(dir, rows[i]) in files
      requires forall i, j :: 0 <= i < j < |rows| ==> rows[i] != rows[j]
      modifies this`files, this`log, this`ledger
      ensures Valid() && Issued() == old(Issued()) && old(log) <= log
      ensures forall id :: Find(files, id) == if id in rows then None else old(Find(files, id))
      ensures ledger.strays == old(ledger.strays) && |log| == |old(log)| + |rows|
    {
      ghost var before := files;
      var i := 0;
      while i < |rows|
        invariant Valid() && Issued() == old(Issued()) && old(log) <= log && i <= |rows|
        invariant |log| == |old(log)| + i
        invariant RowsGone(before, files, rows, i)
        invariant ledger.strays == old(ledger.strays)
      {
        ghost var was := files;
        RowStillThere(before, files, dir, rows, i);
        RemoveFile(Slot(dir, rows[i]));
        RowGone(before, was, files, rows, i);
        i := i + 1;
      }
      assert rows[..i] == rows;
    }

    /** `pruneTerminalLocked`: drops the rows over the limit, oldest first, whatever their state. */
    method PruneTerminal(dir: State, limit: nat)
      requires Valid() && (dir.Completed? || dir.DeadLetter?)
      modifies this`files, this`log, this`ledger
      ensures Valid() && Issued() == old(Issued()) && old(log) <= log
      ensures PrunedTo(old(files), files, dir, limit)
      ensures ledger.strays == old(ledger.strays)
    {
      var ages := AgesIn(files, dir);
      AgesInFiles(files, dir);
      var rows := SortOldestFirst(ages);
      FirstRows(ages, rows, Cut(rows, limit));
      RemoveRows(dir, rows[..Cut(rows, limit)]);
      PrunedRows(old(files), files, dir, rows, limit);
    }

    method MoveAndPrune(slot: Slot, event: Event) returns (job: Job)
      requires Valid()
      requires slot in files && files[slot].state == slot.dir && Allowed(files[slot], event) && !slot.dir.DeadLetter?
      requires !event.Claimed? && Changed(limits, files[slot], event).state.DeadLetter?
      modifies this`files, this`log, this`ledger
      ensures Valid() && Issued() == old(Issued()) && old(log) <= log
      ensures job == Changed(limits, old(files)[slot], event)
      ensures job.id == slot.id && ChangedBy(limits, old(files), files, map[slot.id := job])
      ensures ledger.strays == old(ledger.strays)
    {
      job := WriteAndMove(slot, event);
      ghost var moved := files;
      PruneTerminal(DeadLetter, limits.deadLetters);
      BuryOutcome(limits, old(files), moved, files, job);
    }

    /** `moveToDeadLocked`: every event here ends in the dead-letter directory, which is then cut back; that loses
        exactly the misplaced records with enough newer dead letters. */
    method Bury(slot: Slot, event: Event) returns (job: Job)
      requires Valid()
      requires slot in files && files[slot].state == slot.dir && Allowed(files[slot], event) && !slot.dir.DeadLetter?
      requires !event.Claimed? && Changed(limits, files[slot], event).state.DeadLetter?
      modifies this`files, this`log, this`ledger
      ensures Valid() && Issued() == old(Issued()) && old(log) <= log
      ensures job == Changed(limits, old(files)[slot], event)
      ensures job.id == slot.id && ChangedBy(limits, old(files), files, map[slot.id := job])
      ensures ledger.strays == old(ledger.strays)
      ensures LosesExactly(limits, old(files), old(files), map[slot.id := job], old(Losses()), Losses())
    {
      job := MoveAndPrune(slot, event);
      LedgersAgree(limits, old(log), old(ledger), log, ledger);
      BuryLosses(limits, old(files), files, slot, job, old(Losses()), Losses());
    }

    /** The body of the loop in `recoverInflightLocked`, for a claim that is over. */
    method TakeBack(slot: Slot, now: int) returns (job: Job)
      requires Valid()
      requires slot in files && files[slot].state == slot.dir && Allowed(files[slot], ClaimLapsed(now))
      modifies this`files, this`log, this`ledger
      ensures Valid() && Issued() == old(Issued()) && old(log) <= log
      ensures job == Changed(limits, old(files)[slot], ClaimLapsed(now)) && job.id == slot.id
      ensures ChangedBy(limits, old(files), files, map[slot.id := job])
      ensures ledger.strays == old(ledger.strays)
    {
      var record := files[slot];
      if record.package.Some? && record.attempts < limits.maxAttempts && now < record.expiresAt {
        job := WriteAndMove(slot, ClaimLapsed(now));
        MoveOutcome(limits, old(files), files, job);
      } else {
        job := Bury(slot, ClaimLapsed(now));
      }
    }

    /** `recoverInflightLocked`. */
    method RecoverInflight(now: int)
      requires Valid() && SettledIn(files, Inflight)
      modifies this`files, this`log, this`ledger
      ensures Valid() && Issued() == old(Issued()) && old(log) <= log
      ensures ChangedBy(limits, old(files), files, Recoveries(limits, old(files), now))
      ensures TookBack(limits, old(files), files, now)
      ensures ledger.strays == old(ledger.strays)
    {
      RecordedInv(limits, log, ledger);
      ghost var before := files;
      ghost var changes: map<nat, Job> := map[];
      var names := ReadSorted(IdsIn(files, Inflight));
      NothingChanged(limits, files);
      var i := 0;
      while i < |names|
        invariant Valid() && Issued() == old(Issued()) && old(log) <= log
        invariant Recovering(limits, before, files, changes, names, i, now)
        invariant ledger.strays == old(ledger.strays)
      {
        changes := RecoverNextClaim(names, i, now, before, changes);
        i := i + 1;
      }
      assert names[..i] == names;
      RecoveredAll(limits, before, files, changes, names, now);
      RecoveriesTookBack(limits, before, files, now);
    }

    /** One turn of the recovery loop. */
    method RecoverNextClaim(names: seq<nat>, i: nat, now: int, ghost before: Files, ghost changes: map<nat, Job>)
      returns (ghost changes': map<nat, Job>)
      requires Valid() && i < |names| && SettledIn(before, Inflight)
      requires Recovering(limits, before, files, changes, names, i, now)
      modifies this`files, this`log, this`ledger
      ensures Valid() && Issued() == old(Issued()) && old(log) <= log
      ensures Recovering(limits, before, files, changes', names, i + 1, now) && ledger.strays == old(ledger.strays)
    {
      changes' := changes;
      var slot := Slot(Inflight, names[i]);
      RecoverNext(limits, before, files, changes, names, i, now);
      if ClaimOver(files[slot], now) {
        ghost var was := files;
        var job := TakeBack(slot, now);
        RecoverStep(limits, before, was, files, changes, names, i, now, job);
        changes' := changes[job.id := job];
      }
    }

    /** What every operation does first: reconcile some directories and take back lapsed claims. */
    method Maintain(sources: seq<State>, now: int) returns (ghost settled: Files)
      requires Valid() && Inflight in sources
      modifies this`files, this`log, this`ledger
      ensures Valid() && Issued() == old(Issued()) && old(log) <= log
      ensures MaintainedTo(limits, old(files), settled, files, sources, now) && TookBack(limits, settled, files, now)
      ensures forall dir :: dir in sources ==> SettledIn(files, dir)
      ensures if DeadLetter in sources then Losses() == old(Losses()) && MisplacedIds(files) == {}
              else ledger.strays == old(ledger.strays)
    {
      ghost var before := files;
      var moved := Reconcile(sources);
      settled := files;
      ghost var reconciled, entries := log, ledger;
      RecoverInflight(now);
      MaintainedSettled(limits, before, settled, files, sources, now);
      if DeadLetter in sources {
        ReconciledMisplaced(before, settled, sources);
        NoneLost(limits, reconciled, entries, log, ledger);
      }
    }

    // ----- queueing -----

    /** Writes a fresh record over a dead letter and moves it to pending. */
    method WriteAndReplace(id: nat, job: Job)
      requires Valid() && Slot(DeadLetter, id) in files && files[Slot(DeadLetter, id)].state.DeadLetter?
      requires IsNew(limits, job) && job.id == id
      modifies this`files, this`log, this`ledger
      ensures Valid() && Issued() == old(Issued()) && Losses() == old(Losses())
      ensures log == old(log) + [Replace(Slot(DeadLetter, id), job), Rename(Slot(DeadLetter, id))]
      ensures forall other :: Find(files, other) == After(old(Find(files, other)), map[id := job], other)
    {
      var slot := Slot(DeadLetter, id);
      RewrittenFind(files, slot, job);
      files := files[slot := job];
      Record(Replace(slot, job));
      RenameRecord(slot);
    }

    method WriteNew(job: Job)
      requires Valid() && Find(files, job.id).None? && IsNew(limits, job)
      modifies this`files, this`log, this`ledger
      ensures Valid() && Issued() == old(Issued()) && log == old(log) + [Create(job)] && Losses() == old(Losses())
      ensures forall other :: Find(files, other) == After(old(Find(files, other)), map[job.id := job], other)
    {
      CreatedFind(files, job);
      files := files[Slot(Pending, job.id) := job];
      Record(Create(job));
    }

    /** `queue`: a job that is live or completed is left alone; otherwise a fresh record is pending
        afterwards, over the dead letter if there was one. */
    method Queue(id: nat, provider: nat, content: nat, now: int)
      returns (outcome: QueueOutcome, ghost settled: Files, ghost ready: Files)
      requires Valid()
      modifies this`files, this`log, this`ledger
      ensures Valid() && Issued() == old(Issued()) && old(log) <= log && Losses() == old(Losses())
      ensures MaintainedTo(limits, old(files), settled, ready, QUEUE_STATES, now)
      ensures var place, job := Find(ready, id), NewJob(limits, id, provider, content, now);
              if place.Some? && !place.value.job.state.DeadLetter? then
                outcome == Duplicate(place.value.job) && files == ready
              else
                && outcome == (if place.Some? then Requeued(job) else Queued(job))
                && forall other :: Find(files, other) == After(Find(ready, other), map[id := job], other)
      ensures !outcome.Duplicate? ==>
                FreshlyQueued(limits, outcome.job, id, provider, content, now)
                && Find(files, id) == Some(Place(Pending, outcome.job))
      ensures var slot := Slot(DeadLetter, id);
              outcome.Requeued? ==>
                |log| >= |old(log)| + 2 && log[|log| - 2..] == [Replace(slot, outcome.job), Rename(slot)]
    {
      WhichStates();
      settled := Maintain(QUEUE_STATES, now);
      ready := files;
      var existing := Find(files, id);
      if existing.Some? {
        FindExact(files, Slot(existing.value.dir, id));
        AllSettled(files);
        if !existing.value.job.state.DeadLetter? {
          return Duplicate(existing.value.job), settled, ready;
        }
        var replacement := NewJob(limits, id, provider, content, now);
        WriteAndReplace(id, replacement);
        return Requeued(replacement), settled, ready;
      }
      var job := NewJob(limits, id, provider, content, now);
      WriteNew(job);
      return Queued(job), settled, ready;
    }

    // ----- claims -----

    /** The body of the claim loop, for a due pending job. */
    method HandOut(slot: Slot, token: nat, now: int) returns (job: Job)
      requires Valid() && token !in Issued()
      requires slot in files && files[slot].state == slot.dir == Pending && files[slot].nextAttemptAt <= now
      modifies this`files, this`log, this`ledger
      ensures Valid() && old(log) <= log && Issued() == old(Issued()) + (if job.state.Inflight? then {token} else {})
      ensures job == Changed(limits, old(files)[slot], Offer(old(files)[slot], token, now)) && job.id == slot.id
      ensures ChangedBy(limits, old(files), files, map[slot.id := job])
      ensures ledger.strays == old(ledger.strays)
    {
      var record := files[slot];
      if record.expiresAt <= now {
        job := Bury(slot, Expired(now));
      } else if !PackageIntact(record) {
        job := Bury(slot, PackageRejected(now));
      } else {
        job := WriteAndMove(slot, Claimed(token, now));
        MoveOutcome(limits, old(files), files, job);
      }
    }

    /** One turn of the claim loop. */
    method OfferNext(names: seq<nat>, i: nat, claimed: seq<Job>, provider: nat, tokens: seq<nat>, now: int,
                     ghost ready: Files, ghost changes: map<nat, Job>)
      returns (claimed': seq<Job>, ghost changes': map<nat, Job>)
      requires Valid() && i < |names| && |claimed| < |tokens|
      requires Claiming(limits, ready, files, names, i, changes, claimed, provider, tokens, now)
      requires Unissued(tokens, |claimed|, Issued())
      modifies this`files, this`log, this`ledger
      ensures Valid() && old(log) <= log
      ensures Claiming(limits, ready, files, names, i + 1, changes', claimed', provider, tokens, now)
      ensures ledger.strays == old(ledger.strays)
      ensures |claimed'| <= |tokens| && Unissued(tokens, |claimed'|, Issued())
      ensures Issued() <= old(Issued()) + Items(tokens)
    {
      claimed', changes' := claimed, changes;
      var slot := Slot(Pending, names[i]);
      ClaimingNext(limits, ready, files, names, i, changes, claimed, provider, tokens, now);
      if DueFor(files[slot], provider, now) {
        var token := tokens[|claimed|];
        var job := HandOut(slot, token, now);
        claimed' := claimed + if job.state.Inflight? then [job] else [];
        ClaimingStep(limits, ready, old(files), files, names, i, changes, claimed, claimed', provider, tokens, now,
                     token, job);
        changes' := changes[job.id := job];
      }
    }

    /** The claim loop over the pending jobs. */
    method OfferAll(provider: nat, tokens: seq<nat>, now: int)
      returns (claimed: seq<Job>, ghost seen: seq<nat>, ghost changes: map<nat, Job>)
      requires Valid() && SettledIn(files, Pending) && |tokens| >= 1
      requires Unissued(tokens, 0, Issued())
      modifies this`files, this`log, this`ledger
      ensures Valid() && old(log) <= log
      ensures ClaimPass(limits, old(files), seen, changes, claimed, provider, tokens, now)
      ensures ChangedBy(limits, old(files), files, changes)
      ensures ledger.strays == old(ledger.strays)
      ensures |claimed| <= |tokens| && SeenEnough(old(files), seen, claimed, |tokens|)
      ensures Issued() <= old(Issued()) + Items(tokens)
    {
      ghost var ready := files;
      seen, changes, claimed := [], map[], [];
      var names := ReadSorted(IdsIn(files, Pending));
      ClaimingStarts(limits, ready, names, provider, tokens, now);
      var i := 0;
      while i < |names| && |claimed| < |tokens|
        invariant Valid() && old(log) <= log && i <= |names| && |claimed| <= |tokens|
        invariant Unissued(tokens, |claimed|, Issued()) && Issued() <= old(Issued()) + Items(tokens)
        invariant Claiming(limits, ready, files, names, i, changes, claimed, provider, tokens, now)
        invariant ledger.strays == old(ledger.strays)
      {
        claimed, changes := OfferNext(names, i, claimed, provider, tokens, now, ready, changes);
        i := i + 1;
      }
      seen := names[..i];
      ClaimingEnds(limits, ready, files, names, i, changes, claimed, provider, tokens, now);
    }

    /** `claimSigned` for an authenticated provider: `tokens` are the fresh tokens at its disposal. */
    method ClaimJobs(provider: nat, limit: nat, tokens: seq<nat>, now: int)
      returns (claimed: seq<Job>, ghost settled: Files, ghost ready: Files, ghost seen: seq<nat>,
               ghost changes: map<nat, Job>)
      requires Valid() && limit == |tokens| >= 1
      requires Unissued(tokens, 0, Issued())
      modifies this`files, this`log, this`ledger
      ensures Valid() && old(log) <= log
      ensures MaintainedTo(limits, old(files), settled, ready, CLAIM_STATES, now) && SettledIn(ready, Pending)
      ensures ClaimPass(limits, ready, seen, changes, claimed, provider, tokens, now)
      ensures ChangedBy(limits, ready, files, changes)
      ensures ChangedBy(limits, settled, files, AllChanges(limits, settled, changes, now))
      ensures |claimed| <= limit && SeenEnough(ready, seen, claimed, limit) && Issued() <= old(Issued()) + Items(tokens)
      ensures PassMeans(limits, ready, seen, changes, claimed, provider, tokens, now)
      ensures forall id :: id in changes ==> changes[id].id == id && Went(files, changes[id])
      ensures LosesExactly(limits, old(files), settled, AllChanges(limits, settled, changes, now), old(Losses()),
                           Losses())
    {
      WhichStates();
      settled := Maintain(CLAIM_STATES, now);
      ready := files;
      RecordedInv(limits, log, ledger);
      claimed, seen, changes := OfferAll(provider, tokens, now);
      ClaimPassMeans(limits, ready, seen, changes, claimed, provider, tokens, now);
      forall id: nat | id in changes ensures Went(files, changes[id]) {
        ChangedWent(limits, ready, files, changes, id);
      }
      ClaimPassElsewhere(limits, ready, seen, changes, claimed, provider, tokens, now);
      LedgersAgree(limits, old(log), old(ledger), log, ledger);
      MaintainedThenChanged(limits, old(files), settled, ready, files, CLAIM_STATES, now, changes, old(Losses()),
                            Losses());
    }

    /** `acknowledgeSigned`: succeeds exactly for the current owner of the claim. */
    method Acknowledge(id: nat, provider: nat, token: nat, now: int)
      returns (outcome: ClaimOutcome, ghost settled: Files, ghost ready: Files)
      requires Valid()
      modifies this`files, this`log, this`ledger
      ensures Valid() && Issued() == old(Issued()) && old(log) <= log
      ensures MaintainedTo(limits, old(files), settled, ready, CLAIM_STATES, now)
      ensures ClaimEnds(limits, old(files), ready, files, id, Acknowledged(provider, token, now), outcome)
      ensures outcome.Done? <==> ClaimHeld(old(Find(files, id)), provider, token, now)
      ensures ClaimHeld(old(Find(files, id)), provider, token, now) ==>
                && Went(files, outcome.job)
                && Received(old(Find(files, id)).value.job, outcome.job, now)
      ensures LosesExactly(limits, old(files), settled, AllChanges(limits, settled, Ended(id, outcome), now),
                           old(Losses()), Losses())
    {
      HeldIsOwned(limits, files, id, Acknowledged(provider, token, now));
      outcome, settled, ready := EndClaim(id, Acknowledged(provider, token, now));
    }

    /** `failSigned`: succeeds exactly for the current owner of the claim. */
    method Fail(id: nat, provider: nat, token: nat, retryable: bool, reason: nat, now: int)
      returns (outcome: ClaimOutcome, ghost settled: Files, ghost ready: Files)
      requires Valid()
      modifies this`files, this`log, this`ledger
      ensures Valid() && Issued() == old(Issued()) && old(log) <= log
      ensures MaintainedTo(limits, old(files), settled, ready, CLAIM_STATES, now)
      ensures ClaimEnds(limits, old(files), ready, files, id, Failed(provider, token, retryable, reason, now), outcome)
      ensures outcome.Done? <==> ClaimHeld(old(Find(files, id)), provider, token, now)
      ensures ClaimHeld(old(Find(files, id)), provider, token, now) ==>
                var was := old(Find(files, id)).value.job;
                && outcome.Done? && Went(files, outcome.job)
                && if retryable && was.attempts < limits.maxAttempts
                   then DueAgain(was, outcome.job, Retry(reason), now)
                   else GivenUp(was, outcome.job, reason, now)
      ensures LosesExactly(limits, old(files), settled, AllChanges(limits, settled, Ended(id, outcome), now),
                           old(Losses()), Losses())
    {
      HeldIsOwned(limits, files, id, Failed(provider, token, retryable, reason, now));
      outcome, settled, ready := EndClaim(id, Failed(provider, token, retryable, reason, now));
    }

    /** What both share: maintenance, `readOwnedClaim`, and the move. */
    method EndClaim(id: nat, event: Event) returns (outcome: ClaimOutcome, ghost settled: Files, ghost ready: Files)
      requires Valid() && (event.Acknowledged? || event.Failed?)
      modifies this`files, this`log, this`ledger
      ensures Valid() && Issued() == old(Issued()) && old(log) <= log
      ensures MaintainedTo(limits, old(files), settled, ready, CLAIM_STATES, event.now)
      ensures ClaimEnds(limits, old(files), ready, files, id, event, outcome)
      ensures outcome.Done? <==> ClaimHeld(old(Find(files, id)), event.provider, event.token, event.now)
      ensures OwnedBefore(limits, old(files), id, event) ==>
                && outcome.Done? && old(Find(files, id)).Some? && Went(files, outcome.job)
                && EndMeans(limits, old(Find(files, id)).value.job, event, outcome.job)
      ensures LosesExactly(limits, old(files), settled, AllChanges(limits, settled, Ended(id, outcome), event.now),
                           old(Losses()), Losses())
    {
      WhichStates();
      RecordedInv(limits, log, ledger);
      settled := Maintain(CLAIM_STATES, event.now);
      ready := files;
      ghost var before := old(files);
      outcome := EndReadyClaim(id, event);
      ClaimEnded(limits, before, settled, ready, files, id, event, outcome);
      HeldIsOwned(limits, before, id, event);
      if OwnedBefore(limits, before, id, event) {
        ClaimEndMeans(limits, before, ready, files, id, event, outcome);
      }
      LedgersAgree(limits, old(log), old(ledger), log, ledger);
      MaintainedThenChanged(limits, before, settled, ready, files, CLAIM_STATES, event.now, Ended(id, outcome),
                            old(Losses()), Losses());
    }

    method EndReadyClaim(id: nat, event: Event) returns (outcome: ClaimOutcome)
      requires Valid() && SettledIn(files, Inflight) && (event.Acknowledged? || event.Failed?)
      modifies this`files, this`log, this`ledger
      ensures Valid() && Issued() == old(Issued()) && old(log) <= log
      ensures outcome == ReadyOutcome(limits, old(files), id, event)
      ensures ChangedBy(limits, old(files), files, Ended(id, outcome)) && FromElsewhere(old(files), Ended(id, outcome))
      ensures !outcome.Done? ==> files == old(files)
      ensures ledger.strays == old(ledger.strays)
    {
      var slot := Slot(Inflight, id);
      if slot in files && OwnsClaim(files[slot], event.provider, event.token, event.now) {
        InElsewhere(files, slot);
        var job := MoveClaimed(slot, event);
        return Done(job);
      }
      NothingChanged(limits, files);
      return if slot in files then NotOwned else NotFound;
    }

    /** The move of an owned claim, which for a failure that is not retried goes through `moveToDeadLocked`. */
    method MoveClaimed(slot: Slot, event: Event) returns (job: Job)
      requires Valid() && (event.Acknowledged? || event.Failed?)
      requires slot in files && files[slot].state == slot.dir == Inflight && Allowed(files[slot], event)
      modifies this`files, this`log, this`ledger
      ensures Valid() && Issued() == old(Issued()) && old(log) <= log
      ensures job == Changed(limits, old(files)[slot], event) && job.id == slot.id
      ensures ChangedBy(limits, old(files), files, map[slot.id := job])
      ensures ledger.strays == old(ledger.strays)
    {
      job := Changed(limits, files[slot], event);
      if job.state.DeadLetter? {
        job := Bury(slot, event);
      } else {
        job := WriteAndMove(slot, event);
        MoveOutcome(limits, old(files), files, job);
      }
    }

    // ----- completion -----

    /** `completeFromAttestation`, for the job the attestation's content hashes to. `filled` is the state
        just before the completed directory is cut back to its limit. */
    method Complete(id: nat, provider: nat, content: nat, attestation: nat, now: int)
      returns (outcome: CompletionOutcome, ghost settled: Files, ghost ready: Files, ghost filled: Files)
      requires Valid()
      modifies this`files, this`log, this`ledger
      ensures Valid() && Issued() == old(Issued()) && old(log) <= log && Losses() == old(Losses())
      ensures MaintainedTo(limits, old(files), settled, ready, QUEUE_STATES, now)
      ensures outcome == Completion(limits, Find(ready, id), provider, content, attestation, now)
      ensures match Find(ready, id)
              case None => outcome.Unmatched?
              case Some(place) =>
                if place.job.provider != provider || place.job.content != content then outcome.Mismatch?
                else if place.job.state.Completed? then outcome == AlreadyCompleted(place.job)
                else outcome.Matched? && AttestedBy(place.job, outcome.job, attestation, now)
      ensures if outcome.Matched? then
                && (forall other :: Find(filled, other) == After(Find(ready, other), map[id := outcome.job], other))
                && PrunedTo(filled, files, Completed, limits.completed)
              else
                files == ready
    {
      WhichStates();
      settled := Maintain(QUEUE_STATES, now);
      ready, filled := files, files;
      ghost var maintained, entries := log, ledger;
      var located := Find(files, id);
      if located.None? {
        return Unmatched, settled, ready, filled;
      }
      var slot, record := Slot(located.value.dir, id), located.value.job;
      FindExact(files, slot);
      assert slot in files && files[slot] == record;
      if record.provider != provider || record.content != content {
        return Mismatch, settled, ready, filled;
      }
      if record.state.Completed? {
        return AlreadyCompleted(record), settled, ready, filled;
      }
      AllSettled(files);
      RecordedInv(limits, log, ledger);
      ChangeMeans(limits, record, Attested(attestation, now));
      var job;
      job, filled := Archive(slot, Attested(attestation, now));
      NoneLost(limits, maintained, entries, log, ledger);
      return Matched(job), settled, ready, filled;
    }

    /** The move of a completed job, after which the completed directory is cut back. */
    method Archive(slot: Slot, event: Event) returns (job: Job, ghost filled: Files)
      requires Valid()
      requires slot in files && files[slot].state == slot.dir && event.Attested? && Allowed(files[slot], event)
      modifies this`files, this`log, this`ledger
      ensures Valid() && Issued() == old(Issued()) && old(log) <= log
      ensures job == Changed(limits, old(files)[slot], event)
      ensures ledger.strays == old(ledger.strays)
      ensures forall other :: Find(filled, other) == After(old(Find(files, other)), map[slot.id := job], other)
      ensures PrunedTo(filled, files, Completed, limits.completed)
    {
      job := WriteAndMove(slot, event);
      filled := files;
      PruneTerminal(Completed, limits.completed);
    }

    // ----- the janitor -----

    /** One directory's turn in the janitor's expiry loop; nothing is pruned in between. */
    method ExpireDirectory(dir: State, now: int) returns (expired: nat)
      requires Valid() && (dir.Pending? || dir.Delivered?) && SettledIn(files, dir)
      modifies this`files, this`log, this`ledger
      ensures Valid() && Issued() == old(Issued()) && old(log) <= log
      ensures forall id :: Find(files, id) == AfterExpiry(limits, dir, old(Find(files, id)), now)
      ensures ExpiryMeans(old(files), files, dir, now)
      ensures Losses() == old(Losses()) && ledger.strays == old(ledger.strays)
      ensures |log| == |old(log)| + 2 * expired && (expired == 0 ==> files == old(files))
    {
      var names := ReadSorted(IdsIn(files, dir));
      ghost var before := files;
      RecordedInv(limits, log, ledger);
      IdsInFind(before, dir);
      expired := 0;
      var i := 0;
      while i < |names|
        invariant Valid() && Issued() == old(Issued()) && old(log) <= log && i <= |names|
        invariant ExpiredUpTo(limits, before, files, dir, names, i, now)
        invariant Losses() == old(Losses()) && ledger.strays == old(ledger.strays)
        invariant |log| == |old(log)| + 2 * expired && (expired == 0 ==> files == before)
      {
        var slot := Slot(dir, names[i]);
        ghost var was := files;
        ExpireNext(limits, before, files, dir, names, i, now);
        if files[slot].expiresAt <= now {
          var job := WriteAndMove(slot, Expired(now));
          expired := expired + 1;
        }
        ExpireStep(limits, before, was, files, dir, names, i, now);
        i := i + 1;
      }
      assert names[..i] == names;
      ExpiredMeans(limits, before, files, dir, now);
    }

    /** `pruneDeadLetters`: the janitor drops the first names, whatever their age, which is pruning by age
        exactly when the first names happen to be the oldest. */
    method PruneDeadLetters() returns (ghost names: seq<nat>)
      requires Valid()
      modifies this`files, this`log, this`ledger
      ensures Valid() && Issued() == old(Issued()) && old(log) <= log
      ensures Lists(names, old(IdsIn(files, DeadLetter)))
      ensures forall id ::
                Find(files, id) == if id in FirstNames(names, limits.deadLetters) then None else old(Find(files, id))
      ensures ledger.strays == old(ledger.strays) && |log| == |old(log)| + |FirstNames(names, limits.deadLetters)|
      ensures PrunedTo(old(files), files, DeadLetter, limits.deadLetters) <==>
                FirstNamesOldest(AgesIn(old(files), DeadLetter), names, limits.deadLetters)
    {
      var listed := ReadSorted(IdsIn(files, DeadLetter));
      names := listed;
      IdsInFind(files, DeadLetter);
      FirstListed(listed, Cut(listed, limits.deadLetters));
      RemoveRows(DeadLetter, FirstNames(listed, limits.deadLetters));
      NamePruningIff(old(files), files, names, limits.deadLetters);
    }

    /** `run`: put every record where its state says, bury what is overdue, cut back the dead letters. */
    method RunJanitor(now: int) returns (reconciled: nat, expired: nat, ghost names: seq<nat>)
      requires Valid()
      modifies this`files, this`log, this`ledger
      ensures Valid() && Issued() == old(Issued()) && old(log) <= log && Losses() == old(Losses())
      ensures Ascending(names) && forall id :: id in names <==> DeadAfterJanitor(limits, old(files), now, id)
      ensures forall id :: Find(files, id) ==
                           if id in FirstNames(names, limits.deadLetters) then None
                             else AfterJanitor(limits, old(Find(files, id)), now)
      ensures InOrder(files) && NoneOverdue(files, now)
      ensures |log| == |old(log)| + reconciled + 2 * expired + |FirstNames(names, limits.deadLetters)|
    {
      ghost var before := files;
      reconciled := Reconcile(ALL_STATES);
      assert Pending in ALL_STATES && Delivered in ALL_STATES;
      ghost var settled := files;
      ghost var tidy, entries := log, ledger;
      ReconciledMisplaced(before, settled, ALL_STATES);
      var pending := ExpireDirectory(Pending, now);
      DeliveredStaySettled(limits, settled, files, now);
      var delivered := ExpireDirectory(Delivered, now);
      expired := pending + delivered;
      ghost var aged := files;
      AgedFind(limits, before, settled, aged, now);
      AgedInOrder(limits, before, aged, now);
      names := PruneDeadLetters();
      JanitorOutcome(limits, before, aged, files, names, now);
      NoneLost(limits, tidy, entries, log, ledger);
    }
  }
}
