/**
 The managed outbox of src/evidence/externalScanJobLifecycle.js: every operation runs right after a
 janitor pass. What that buys: no removal ever finds a record that is not finished, wherever a crash
 strikes, and deadlines bound how long a job is active.
 */
module ScanJobLifecycle {
  import opened Prelude
  import opened ScanJobs
  import opened ScanJobFiles
  import opened Retention
  import opened ScanJobEffects
  import opened ScanJobOutbox

  /** One reconcile pass puts every record in the directory of its state, changing no record and losing
      none; a second pass moves nothing. */
  method ReconcileTwice(outbox: Outbox) returns (moved: nat, movedAgain: nat)
    requires outbox.Valid()
    modifies outbox`files, outbox`log, outbox`ledger
    ensures outbox.Valid() && InOrder(outbox.files) && movedAgain == 0
    ensures forall id :: FindJob(outbox.files, id) == old(FindJob(outbox.files, id))
    ensures moved == 0 <==> old(InOrder(outbox.files))
    ensures moved == 0 ==> outbox.log == old(outbox.log)
  {
    EveryDirectory(outbox.files);
    moved := outbox.Reconcile(ALL_STATES);
    EveryDirectory(outbox.files);
    movedAgain := outbox.Reconcile(ALL_STATES);
  }

  lemma EveryDirectory(files: Files)
    ensures InOrder(files) <==> SettledInAll(files, ALL_STATES)
  {
    assert ALL_STATES == [Pending, Inflight, Delivered, Completed, DeadLetter];
    forall s | s in files ensures s.dir in ALL_STATES {
      match s.dir
      case Pending => assert ALL_STATES[0] in ALL_STATES;
      case Inflight => assert ALL_STATES[1] in ALL_STATES;
      case Delivered => assert ALL_STATES[2] in ALL_STATES;
      case Completed => assert ALL_STATES[3] in ALL_STATES;
      case DeadLetter => assert ALL_STATES[4] in ALL_STATES;
    }
    if SettledInAll(files, ALL_STATES) {
      forall s | s in files ensures files[s].state == s.dir {
        assert SettledIn(files, s.dir);
      }
    }
  }

  /** What creating the store does: a restarted process puts every record in order and takes back the lapsed
      claims, and that loses no record. */
  method StartUp(outbox: Outbox, now: int) returns (ghost settled: Files)
    requires outbox.Valid()
    modifies outbox`files, outbox`log, outbox`ledger
    ensures outbox.Valid() && InOrder(outbox.files) && outbox.Losses() == old(outbox.Losses())
    ensures MaintainedTo(outbox.limits, old(outbox.files), settled, outbox.files, ALL_STATES, now)
  {
    assert ALL_STATES[1] == Inflight && ALL_STATES[4] == DeadLetter;
    settled := outbox.Maintain(ALL_STATES, now);
    EveryDirectory(outbox.files);
  }

  // ----- operations after a janitor pass lose nothing -----

  lemma NoneMisplaced(files: Files)
    requires InOrder(files)
    ensures MisplacedIds(files) == {}
  {
  }

  /** What was lost tells which removals were safe. */
  lemma SafeWhenNothingLost(l: Limits, log: seq<DiskOp>, ledger: Ledger, more: seq<DiskOp>, ledger': Ledger)
    requires Recorded(l, log, ledger) && Recorded(l, more, ledger') && log <= more && ledger'.lost == ledger.lost
    ensures Legal(l, more) && SafeFrom(l, more, |log|)
  {
    RecordedOpen(l, log, ledger);
    RecordedOpen(l, more, ledger');
    SafeExtension(l, log, more);
  }

  lemma SafeExtension(l: Limits, log: seq<DiskOp>, more: seq<DiskOp>)
    requires Legal(l, log) && Legal(l, more) && log <= more && Lost(l, more) == Lost(l, log)
    ensures SafeFrom(l, more, |log|)
  {
    assert more[..|log|] == log;
    NothingLostIffSafe(l, more, |log|);
  }

  /** The janitor pass an operation starts with. */
  ghost predicate Cleaned(files: Files, now: int) {
    InOrder(files) && NoneOverdue(files, now)
  }

  method Clean(outbox: Outbox, now: int)
    requires outbox.Valid()
    modifies outbox`files, outbox`log, outbox`ledger
    ensures outbox.Valid() && outbox.Issued() == old(outbox.Issued()) && old(outbox.log) <= outbox.log
    ensures outbox.Losses() == old(outbox.Losses())
    ensures Cleaned(outbox.files, now) && MisplacedIds(outbox.files) == {}
  {
    var reconciled, expired, names := outbox.RunJanitor(now);
    NoneMisplaced(outbox.files);
  }

  method QueueManaged(outbox: Outbox, id: nat, provider: nat, content: nat, now: int)
    returns (outcome: QueueOutcome, ghost cleaned: Files, ghost settled: Files, ghost ready: Files)
    requires outbox.Valid()
    modifies outbox`files, outbox`log, outbox`ledger
    ensures outbox.Valid() && old(outbox.log) <= outbox.log
    ensures Legal(outbox.limits, outbox.log) && SafeFrom(outbox.limits, outbox.log, |old(outbox.log)|)
    ensures Cleaned(cleaned, now) && MaintainedTo(outbox.limits, cleaned, settled, ready, QUEUE_STATES, now)
    ensures outcome.Duplicate? ==> Find(ready, id).Some? && !outcome.job.state.DeadLetter? && outbox.files == ready
    ensures !outcome.Duplicate? ==>
              Find(outbox.files, id) == Some(Place(Pending, NewJob(outbox.limits, id, provider, content, now)))
              && FreshlyQueued(outbox.limits, outcome.job, id, provider, content, now)
  {
    Clean(outbox, now);
    cleaned := outbox.files;
    outcome, settled, ready := outbox.Queue(id, provider, content, now);
    SafeWhenNothingLost(outbox.limits, old(outbox.log), old(outbox.ledger), outbox.log, outbox.ledger);
  }

  method AcknowledgeManaged(outbox: Outbox, id: nat, provider: nat, token: nat, now: int)
    returns (outcome: ClaimOutcome, ghost cleaned: Files, ghost settled: Files, ghost ready: Files)
    requires outbox.Valid()
    modifies outbox`files, outbox`log, outbox`ledger
    ensures outbox.Valid() && old(outbox.log) <= outbox.log
    ensures Legal(outbox.limits, outbox.log) && SafeFrom(outbox.limits, outbox.log, |old(outbox.log)|)
    ensures Cleaned(cleaned, now) && MaintainedTo(outbox.limits, cleaned, settled, ready, CLAIM_STATES, now)
    ensures ClaimEnds(outbox.limits, cleaned, ready, outbox.files, id, Acknowledged(provider, token, now), outcome)
    ensures outcome.Done? <==> ClaimHeld(Find(cleaned, id), provider, token, now)
    ensures ClaimHeld(Find(cleaned, id), provider, token, now) ==>
              Received(Find(cleaned, id).value.job, outcome.job, now)
  {
    Clean(outbox, now);
    cleaned := outbox.files;
    outcome, settled, ready := outbox.Acknowledge(id, provider, token, now);
    assert {} * Dropped(outbox.limits, settled, AllChanges(outbox.limits, settled, Ended(id, outcome), now)) == {};
    SafeWhenNothingLost(outbox.limits, old(outbox.log), old(outbox.ledger), outbox.log, outbox.ledger);
  }

  method FailManaged(outbox: Outbox, id: nat, provider: nat, token: nat, retryable: bool, reason: nat, now: int)
    returns (outcome: ClaimOutcome, ghost cleaned: Files, ghost settled: Files, ghost ready: Files)
    requires outbox.Valid()
    modifies outbox`files, outbox`log, outbox`ledger
    ensures outbox.Valid() && old(outbox.log) <= outbox.log
    ensures Legal(outbox.limits, outbox.log) && SafeFrom(outbox.limits, outbox.log, |old(outbox.log)|)
    ensures Cleaned(cleaned, now) && MaintainedTo(outbox.limits, cleaned, settled, ready, CLAIM_STATES, now)
    ensures ClaimEnds(outbox.limits, cleaned, ready, outbox.files, id, Failed(provider, token, retryable, reason, now),
                      outcome)
    ensures outcome.Done? <==> ClaimHeld(Find(cleaned, id), provider, token, now)
    ensures ClaimHeld(Find(cleaned, id), provider, token, now) ==>
              var was := Find(cleaned, id).value.job;
              && outcome.Done?
              && if retryable && was.attempts < outbox.limits.maxAttempts
                 then DueAgain(was, outcome.job, Retry(reason), now)
                 else GivenUp(was, outcome.job, reason, now)
  {
    Clean(outbox, now);
    cleaned := outbox.files;
    outcome, settled, ready := outbox.Fail(id, provider, token, retryable, reason, now);
    assert {} * Dropped(outbox.limits, settled, AllChanges(outbox.limits, settled, Ended(id, outcome), now)) == {};
    SafeWhenNothingLost(outbox.limits, old(outbox.log), old(outbox.ledger), outbox.log, outbox.ledger);
  }

  method CompleteManaged(outbox: Outbox, id: nat, provider: nat, content: nat, attestation: nat, now: int)
    returns (outcome: CompletionOutcome, ghost cleaned: Files, ghost settled: Files, ghost ready: Files)
    requires outbox.Valid()
    modifies outbox`files, outbox`log, outbox`ledger
    ensures outbox.Valid() && old(outbox.log) <= outbox.log
    ensures Legal(outbox.limits, outbox.log) && SafeFrom(outbox.limits, outbox.log, |old(outbox.log)|)
    ensures Cleaned(cleaned, now) && MaintainedTo(outbox.limits, cleaned, settled, ready, QUEUE_STATES, now)
    ensures outcome == Completion(outbox.limits, Find(ready, id), provider, content, attestation, now)
  {
    Clean(outbox, now);
    cleaned := outbox.files;
    ghost var filled;
    outcome, settled, ready, filled := outbox.Complete(id, provider, content, attestation, now);
    SafeWhenNothingLost(outbox.limits, old(outbox.log), old(outbox.ledger), outbox.log, outbox.ledger);
  }

  // ----- deadlines -----

  predicate Active(j: Job) {
    j.state.Pending? || j.state.Inflight? || j.state.Delivered?
  }

  lemma SettledAlready(before: Files, settled: Files, sources: seq<State>, id: nat)
    requires WellPlaced(before) && InOrder(before) && Reconciled(before, settled, sources)
    ensures Find(settled, id) == Find(before, id)
  {
    if Find(before, id).Some? {
      InOrderPlace(before, id);
    }
    assert Find(settled, id) == Settled(sources, Find(before, id));
  }

  lemma InOrderPlace(files: Files, id: nat)
    requires WellPlaced(files) && InOrder(files) && Find(files, id).Some?
    ensures var place := Find(files, id).value;
            Slot(place.dir, id) in files && files[Slot(place.dir, id)] == place.job && place.job.state == place.dir
  {
    FindExact(files, Slot(Find(files, id).value.dir, id));
  }

  /** Where taking back lapsed claims puts a job. */
  function Recovered(l: Limits, place: Option<Place>, now: int): Option<Place> {
    if place.Some? && place.value.dir.Inflight? && ClaimOver(place.value.job, now) then
      var job := Changed(l, place.value.job, ClaimLapsed(now));
      Some(Place(job.state, job))
    else
      place
  }

  /** On a store in order, maintenance only takes back lapsed claims and drops dead letters. */
  lemma MaintainedInOrder(l: Limits, cleaned: Files, settled: Files, files: Files, sources: seq<State>, now: int,
                          id: nat)
    requires WellPlaced(cleaned) && InOrder(cleaned) && MaintainedTo(l, cleaned, settled, files, sources, now)
    ensures var place := Recovered(l, Find(cleaned, id), now);
            Find(files, id) == place || (IsDead(place) && Find(files, id).None?)
  {
    var recovered := Recoveries(l, settled, now);
    SettledAlready(cleaned, settled, sources, id);
    RecoveriesAt(l, settled, now, id);
    FindExact(settled, Slot(Inflight, id));
    DeadAgesAt(settled, recovered, id);
    assert Find(files, id) ==
           if id in Dropped(l, settled, recovered) then None else After(Find(settled, id), recovered, id);
  }

  /** After a janitor pass at `t` and maintenance at `t'`, a job past its deadline is active only inside a
      claim that is still running, and never once a whole claim lease has passed since the deadline. */
  lemma DeadlineBound(l: Limits, cleaned: Files, t: int, settled: Files, files: Files, sources: seq<State>, t': int,
                      id: nat)
    requires WellPlaced(cleaned) && (forall s :: s in cleaned ==> JobInv(l, cleaned[s]))
    requires Cleaned(cleaned, t) && t <= t'
    requires MaintainedTo(l, cleaned, settled, files, sources, t')
    ensures var job := FindJob(files, id);
            job.Some? && Active(job.value) && job.value.expiresAt <= t ==>
              && job.value.state.Inflight? && job.value.claimExpiresAt.Some?
              && t' < job.value.claimExpiresAt.value < job.value.expiresAt + l.leaseMs
  {
    MaintainedInOrder(l, cleaned, settled, files, sources, t', id);
    if Find(cleaned, id).Some? {
      InOrderPlace(cleaned, id);
      OverdueWhenRecovered(l, Find(cleaned, id).value.job, t, t');
    }
  }

  lemma OverdueWhenRecovered(l: Limits, j: Job, t: int, t': int)
    requires JobInv(l, j) && t <= t' && (j.state.Pending? || j.state.Delivered? ==> j.expiresAt > t)
    ensures var job := Recovered(l, Some(Place(j.state, j)), t').value.job;
            Active(job) && job.expiresAt <= t ==>
              && job.state.Inflight? && job.claimExpiresAt.Some?
              && t' < job.claimExpiresAt.value < job.expiresAt + l.leaseMs
  {
  }

  // ----- a managed claim -----

  ghost function OverdueActive(files: Files, now: int): iset<nat> {
    iset id: nat | FindJob(files, id).Some? && Active(FindJob(files, id).value)
      && FindJob(files, id).value.expiresAt <= now
  }

  ghost predicate HeldByRunningClaim(files: Files, id: nat, now: int) {
    var job := FindJob(files, id);
    job.Some? && job.value.state.Inflight? && job.value.claimExpiresAt.Some? && job.value.claimExpiresAt.value > now
  }

  /** The job is unexpired and finished or still to be handed out, now or again. */
  ghost predicate Survives(l: Limits, files: Files, id: nat, now: int) {
    var job := FindJob(files, id);
    && job.Some? && !job.value.state.DeadLetter? && job.value.expiresAt > now
    && (job.value.state.Inflight? && ClaimOver(job.value, now) ==> job.value.attempts < l.maxAttempts)
  }

  /** What a managed claim guarantees: overdue jobs are active only under running claims, no job that
      still has a future is lost, and only unexpired jobs of this provider are handed out, one per token. */
  ghost predicate ManagedClaim(l: Limits, cleaned: Files, ready: Files, files: Files, claimed: seq<Job>,
                               provider: nat, tokens: seq<nat>, now: int) {
    && Cleaned(cleaned, now)
    && (forall id :: id in OverdueActive(ready, now) ==> HeldByRunningClaim(ready, id, now))
    && (forall id :: Survives(l, cleaned, id, now) ==> FindJob(files, id).Some?)
    && |claimed| <= |tokens|
    && (forall m :: 0 <= m < |claimed| ==>
          claimed[m].provider == provider && claimed[m].claimToken == Some(tokens[m]) && claimed[m].expiresAt > now)
  }

  lemma HandedOutInTime(l: Limits, ready: Files, seen: seq<nat>, changes: map<nat, Job>, claimed: seq<Job>,
                        provider: nat, tokens: seq<nat>, now: int, m: nat)
    requires ClaimPass(l, ready, seen, changes, claimed, provider, tokens, now) && SettledIn(ready, Pending)
             && m < |claimed|
    ensures claimed[m].provider == provider && claimed[m].claimToken == Some(tokens[m]) && claimed[m].expiresAt > now
  {
    var id := claimed[m].id;
    var j := ready[Slot(Pending, id)];
    assert IsOffer(l, j, changes[id], claimed, now);
  }

  /** A surviving job is not a dead letter after maintenance either, and its package is in order. */
  lemma SurvivesMaintenance(l: Limits, cleaned: Files, settled: Files, ready: Files, now: int, id: nat)
    requires WellPlaced(cleaned) && InOrder(cleaned) && (forall s :: s in cleaned ==> JobInv(l, cleaned[s]))
    requires MaintainedTo(l, cleaned, settled, ready, CLAIM_STATES, now) && Survives(l, cleaned, id, now)
    ensures Find(ready, id).Some? && !Find(ready, id).value.dir.DeadLetter?
    ensures Find(ready, id).value.dir.Pending? ==>
              Find(ready, id).value.job.expiresAt > now && PackageIntact(Find(ready, id).value.job)
  {
    MaintainedInOrder(l, cleaned, settled, ready, CLAIM_STATES, now, id);
    InOrderPlace(cleaned, id);
    SurvivesRecovery(l, Find(cleaned, id).value.job, now);
  }

  lemma SurvivesRecovery(l: Limits, j: Job, now: int)
    requires JobInv(l, j) && !j.state.DeadLetter? && j.expiresAt > now
    requires j.state.Inflight? && ClaimOver(j, now) ==> j.attempts < l.maxAttempts
    ensures var place := Recovered(l, Some(Place(j.state, j)), now);
            && place.Some? && !IsDead(place)
            && (place.value.dir.Pending? ==> place.value.job.expiresAt > now && PackageIntact(place.value.job))
  {
  }

  lemma SurvivesClaiming(l: Limits, ready: Files, files: Files, seen: seq<nat>, changes: map<nat, Job>,
                         claimed: seq<Job>, provider: nat, tokens: seq<nat>, now: int, id: nat)
    requires WellPlaced(ready) && ChangedBy(l, ready, files, changes)
    requires ClaimPass(l, ready, seen, changes, claimed, provider, tokens, now)
    requires Find(ready, id).Some? && !Find(ready, id).value.dir.DeadLetter?
    requires Find(ready, id).value.dir.Pending? ==>
               Find(ready, id).value.job.expiresAt > now && PackageIntact(Find(ready, id).value.job)
    ensures FindJob(files, id).Some?
  {
    FindExact(ready, Slot(Pending, id));
    if id in changes {
      assert IsOffer(l, ready[Slot(Pending, id)], changes[id], claimed, now);
    }
    DeadAgesAt(ready, changes, id);
  }

  lemma ManagedClaimHolds(l: Limits, cleaned: Files, settled: Files, ready: Files, files: Files, seen: seq<nat>,
                          changes: map<nat, Job>, claimed: seq<Job>, provider: nat, tokens: seq<nat>, now: int)
    requires WellPlaced(cleaned) && (forall s :: s in cleaned ==> JobInv(l, cleaned[s])) && Cleaned(cleaned, now)
    requires MaintainedTo(l, cleaned, settled, ready, CLAIM_STATES, now) && SettledIn(ready, Pending)
    requires ChangedBy(l, ready, files, changes)
    requires ClaimPass(l, ready, seen, changes, claimed, provider, tokens, now)
    ensures ManagedClaim(l, cleaned, ready, files, claimed, provider, tokens, now)
  {
    forall id | id in OverdueActive(ready, now) ensures HeldByRunningClaim(ready, id, now) {
      DeadlineBound(l, cleaned, now, settled, ready, CLAIM_STATES, now, id);
    }
    forall id: nat | Survives(l, cleaned, id, now) ensures FindJob(files, id).Some? {
      SurvivesMaintenance(l, cleaned, settled, ready, now, id);
      SurvivesClaiming(l, ready, files, seen, changes, claimed, provider, tokens, now, id);
    }
    forall m | 0 <= m < |claimed|
      ensures claimed[m].provider == provider && claimed[m].claimToken == Some(tokens[m]) && claimed[m].expiresAt > now
    {
      HandedOutInTime(l, ready, seen, changes, claimed, provider, tokens, now, m);
    }
  }

  method ClaimManaged(outbox: Outbox, provider: nat, limit: nat, tokens: seq<nat>, now: int)
    returns (claimed: seq<Job>, ghost cleaned: Files, ghost ready: Files)
    requires outbox.Valid() && limit == |tokens| >= 1 && Unissued(tokens, 0, outbox.Issued())
    modifies outbox`files, outbox`log, outbox`ledger
    ensures outbox.Valid() && old(outbox.log) <= outbox.log
    ensures Legal(outbox.limits, outbox.log) && SafeFrom(outbox.limits, outbox.log, |old(outbox.log)|)
    ensures ManagedClaim(outbox.limits, cleaned, ready, outbox.files, claimed, provider, tokens, now)
  {
    Clean(outbox, now);
    cleaned := outbox.files;
    RecordedInv(outbox.limits, outbox.log, outbox.ledger);
    ghost var settled, seen, changes;
    claimed, settled, ready, seen, changes := outbox.ClaimJobs(provider, limit, tokens, now);
    assert {} * Dropped(outbox.limits, settled, AllChanges(outbox.limits, settled, changes, now)) == {};
    SafeWhenNothingLost(outbox.limits, old(outbox.log), old(outbox.ledger), outbox.log, outbox.ledger);
    ManagedClaimHolds(outbox.limits, cleaned, settled, ready, outbox.files, seen, changes, claimed, provider, tokens,
                      now);
  }

  // ----- a retryable failure is handed out again -----

  /** The job waits for its next claim, though its file may not have been moved yet. */
  ghost predicate WaitsAs(files: Files, id: nat, job: Job) {
    var place := Find(files, id);
    && place.Some? && place.value.job == job && job.state.Pending?
    && (place.value.dir.Pending? || place.value.dir.Inflight?)
  }

  /** Only queueing or changing a job ends its waiting. */
  lemma WaitsOn(l: Limits, w: World, op: DiskOp, id: nat, job: Job)
    requires ValidLimits(l) && WorldInv(l, w) && OpAllowed(l, w, op) && !Queues(op, id) && !Changes(op, id)
    requires WaitsAs(w.files, id, job)
    ensures WaitsAs(Apply(l, w, op).files, id, job)
  {
    OpKeepsInv(l, w, op);
    var w', place := Apply(l, w, op), Find(w.files, id).value;
    FindExact(w.files, Slot(place.dir, id));
    if op.Create? {
      assert op.job.id != id;
      FindUnchanged(w.files, w'.files, id);
    } else if op.slot.id != id {
      FindUnchanged(w.files, w'.files, id);
    } else {
      FindExact(w.files, op.slot);
      assert op.slot.dir == place.dir;
      FindExact(w'.files, Slot(Pending, id));
    }
  }

  lemma {:induction false} WaitsSince(l: Limits, log: seq<DiskOp>, k: nat, id: nat, job: Job)
    requires ValidLimits(l) && Legal(l, log) && k < |log|
    requires Legal(l, log[..k + 1]) && WaitsAs(Reached(l, log[..k + 1]).files, id, job)
    requires forall i :: k < i < |log| ==> !Queues(log[i], id) && !Changes(log[i], id)
    ensures WaitsAs(Reached(l, log).files, id, job)
    decreases |log|
  {
    var init := log[..|log| - 1];
    if k + 1 == |log| {
      assert log[..k + 1] == log;
    } else {
      assert init[..k + 1] == log[..k + 1];
      WaitsSince(l, init, k, id, job);
      ReachedInv(l, init);
      WaitsOn(l, Reached(l, init), log[|log| - 1], id, job);
    }
  }

  /** At step `k` of the run this job's claim failed, retryably and with attempts left. */
  ghost predicate FailedRetryably(l: Limits, log: seq<DiskOp>, k: nat, was: Job) {
    && Legal(l, log) && k < |log| && Changes(log[k], was.id) && log[k].event.Failed? && log[k].event.retryable
    && Legal(l, log[..k]) && log[k].slot in Reached(l, log[..k]).files
    && Reached(l, log[..k]).files[log[k].slot] == was && was.attempts < l.maxAttempts
  }

  /** From a retryable failure until it is queued anew or changed, the job is due, in every state of the run. */
  lemma RetriedIsDue(l: Limits, log: seq<DiskOp>, k: nat, was: Job)
    requires ValidLimits(l) && FailedRetryably(l, log, k, was)
    requires forall i :: k < i < |log| ==> !Queues(log[i], was.id) && !Changes(log[i], was.id)
    ensures exists job :: WaitsAs(Reached(l, log).files, was.id, job)
                          && DueAgain(was, job, Retry(log[k].event.reason), log[k].event.now)
    ensures was.provider == log[k].event.provider
  {
    var id, event := was.id, log[k].event;
    AtIndex(l, log, k);
    ReachedInv(l, log[..k]);
    PrefixLegal(l, log, k + 1);
    assert log[..k + 1][..k] == log[..k];
    ChangeMeans(l, was, event);
    var job, files := Changed(l, was, event), Reached(l, log[..k]).files;
    RewrittenFind(files, log[k].slot, job);
    FindExact(files, log[k].slot);
    assert Reached(l, log[..k + 1]).files == files[log[k].slot := job];
    assert WaitsAs(Reached(l, log[..k + 1]).files, id, job);
    WaitsSince(l, log, k, id, job);
  }

  /** The job is among those handed out, under the token of its turn, with its package and one attempt more. */
  ghost predicate ClaimedAs(l: Limits, claimed: seq<Job>, tokens: seq<nat>, was: Job, now: int) {
    exists m :: 0 <= m < |claimed| <= |tokens| && HandedOut(l, was, claimed[m], tokens[m], now)
  }

  lemma RecordedWaits(l: Limits, log: seq<DiskOp>, ledger: Ledger, k: nat, was: Job, now: int) returns (job: Job)
    requires ValidLimits(l) && Recorded(l, log, ledger) && FailedRetryably(l, log, k, was)
    requires forall i :: k < i < |log| ==> !Queues(log[i], was.id) && !Changes(log[i], was.id)
    requires log[k].event.now <= now
    ensures WaitsAs(ledger.world.files, was.id, job) && SameErrand(was, job) && job.nextAttemptAt <= now
    ensures job.package == was.package && job.attempts == was.attempts
  {
    RecordedOpen(l, log, ledger);
    RetriedIsDue(l, log, k, was);
    job :| WaitsAs(Reached(l, log).files, was.id, job)
           && DueAgain(was, job, Retry(log[k].event.reason), log[k].event.now);
  }

  lemma ReachedIsClaimed(l: Limits, ready: Files, seen: seq<nat>, changes: map<nat, Job>, claimed: seq<Job>,
                         provider: nat, tokens: seq<nat>, now: int, job: Job)
    requires |claimed| <= |tokens| && PassMeans(l, ready, seen, changes, claimed, provider, tokens, now)
    requires forall id: nat :: id in changes ==> changes[id].id == id
    requires Slot(Pending, job.id) in ready && ready[Slot(Pending, job.id)] == job && job.provider == provider
    requires job.nextAttemptAt <= now < job.expiresAt && job.id in seen
    ensures ClaimedAs(l, claimed, tokens, job, now)
  {
    assert changes[job.id] in claimed;
    var m :| 0 <= m < |claimed| && claimed[m] == changes[job.id];
  }

  /** A claim pass of its provider that reaches a waiting job hands it out. */
  method ClaimWaiting(outbox: Outbox, provider: nat, limit: nat, tokens: seq<nat>, now: int, ghost job: Job)
    returns (claimed: seq<Job>, ghost seen: seq<nat>)
    requires outbox.Valid() && limit == |tokens| >= 1 && Unissued(tokens, 0, outbox.Issued())
    requires WaitsAs(outbox.files, job.id, job) && job.provider == provider
    requires job.nextAttemptAt <= now < job.expiresAt
    modifies outbox`files, outbox`log, outbox`ledger
    ensures outbox.Valid() && old(outbox.log) <= outbox.log
    ensures |claimed| < limit ==> job.id in seen
    ensures job.id in seen ==> ClaimedAs(outbox.limits, claimed, tokens, job, now)
  {
    ghost var settled, ready, changes;
    claimed, settled, ready, seen, changes := outbox.ClaimJobs(provider, limit, tokens, now);
    WaitingIsReady(outbox.limits, old(outbox.files), settled, ready, now, job.id, job);
    if job.id in seen {
      ReachedIsClaimed(outbox.limits, ready, seen, changes, claimed, provider, tokens, now, job);
    }
  }

  /** After a retryable failure, and whatever happened to other jobs since, the next claim pass of its provider that
      reaches the unexpired job hands it out; a pass that does not fill its limit reaches every job. */
  method RetriedIsHandedOut(outbox: Outbox, provider: nat, limit: nat, tokens: seq<nat>, now: int,
                            ghost k: nat, ghost was: Job)
    returns (claimed: seq<Job>, ghost seen: seq<nat>)
    requires outbox.Valid() && limit == |tokens| >= 1 && Unissued(tokens, 0, outbox.Issued())
    requires FailedRetryably(outbox.limits, outbox.log, k, was) && provider == was.provider
    requires forall i :: k < i < |outbox.log| ==> !Queues(outbox.log[i], was.id) && !Changes(outbox.log[i], was.id)
    requires outbox.log[k].event.now <= now < was.expiresAt
    modifies outbox`files, outbox`log, outbox`ledger
    ensures outbox.Valid() && old(outbox.log) <= outbox.log
    ensures |claimed| < limit ==> was.id in seen
    ensures was.id in seen ==> ClaimedAs(outbox.limits, claimed, tokens, was, now)
  {
    ghost var job := RecordedWaits(outbox.limits, outbox.log, outbox.ledger, k, was, now);
    claimed, seen := ClaimWaiting(outbox, provider, limit, tokens, now, job);
  }

  /** Maintenance leaves a waiting job where the claim pass looks for it. */
  lemma WaitingIsReady(l: Limits, before: Files, settled: Files, ready: Files, now: int, id: nat, job: Job)
    requires MaintainedTo(l, before, settled, ready, CLAIM_STATES, now) && WaitsAs(before, id, job)
    ensures Slot(Pending, id) in ready && ready[Slot(Pending, id)] == job
  {
    WhichStates();
    assert Find(settled, id) == Settled(CLAIM_STATES, Find(before, id));
    FindExact(settled, Slot(Inflight, id));
    RecoveriesAt(l, settled, now, id);
    DeadAgesAt(settled, Recoveries(l, settled, now), id);
    FindExact(ready, Slot(Pending, id));
  }
}
