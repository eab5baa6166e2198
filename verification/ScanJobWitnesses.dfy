/**
 Two runs of the outbox that show limits of its pruning: without a janitor pass a live job can be pruned,
 and the janitor's own pruning can keep an older dead letter and drop a newer one. Both runs are made by
 the operations themselves.
 */
module ScanJobWitnesses {
  import opened Prelude
  import opened ScanJobs
  import opened ScanJobFiles
  import opened Retention
  import opened ScanJobEffects
  import opened ScanJobOutbox

  /** One dead letter is kept, and a job lives one minute. */
  const TIGHT_LIMITS := Limits(60_000, 1_000, 1, 100, 1)

  function Fresh(id: nat, provider: nat, now: int): Job {
    NewJob(TIGHT_LIMITS, id, provider, 0, now)
  }

  function Waiting(id: nat, provider: nat, queuedAt: int): Option<Place> {
    Some(Place(Pending, Fresh(id, provider, queuedAt)))
  }

  function Died(id: nat, provider: nat, queuedAt: int, now: int): Job {
    Changed(TIGHT_LIMITS, Fresh(id, provider, queuedAt), Expired(now))
  }

  function Dead(id: nat, provider: nat, queuedAt: int, now: int): Option<Place> {
    Some(Place(DeadLetter, Died(id, provider, queuedAt, now)))
  }

  /** A fresh record among the dead letters. */
  function Stray(id: nat, provider: nat, queuedAt: int): Option<Place> {
    Some(Place(DeadLetter, Fresh(id, provider, queuedAt)))
  }

  /** The store holds at most the jobs 0 and 1, and holds them there. */
  ghost predicate Holds(files: Files, zero: Option<Place>, one: Option<Place>) {
    WellPlaced(files) && forall id: nat :: Find(files, id) == if id == 0 then zero else if id == 1 then one else None
  }

  /** The job is not inflight, and not out of place in one of these directories. */
  predicate Quiet(place: Option<Place>, sources: seq<State>) {
    place.Some? ==>
      !place.value.dir.Inflight? && (place.value.dir in sources ==> place.value.job.state == place.value.dir)
  }

  lemma QuietHolds(before: Files, settled: Files, ready: Files, sources: seq<State>, now: int, zero: Option<Place>,
                   one: Option<Place>)
    requires Holds(before, zero, one) && Quiet(zero, sources) && Quiet(one, sources)
    requires MaintainedTo(TIGHT_LIMITS, before, settled, ready, sources, now)
    ensures Holds(settled, zero, one) && Holds(ready, zero, one) && Recoveries(TIGHT_LIMITS, settled, now) == map[]
  {
    forall s | s in before
      ensures Some(Place(s.dir, before[s])) == if s.id == 0 then zero else if s.id == 1 then one else None
    {
      FindExact(before, s);
    }
    QuietMaintenance(TIGHT_LIMITS, before, settled, ready, sources, now);
  }

  // ----- queueing -----

  /** After queueing job `id` over `ready`. */
  ghost predicate QueuedOver(ready: Files, files: Files, id: nat, provider: nat, now: int) {
    forall other: nat :: Find(files, other) == After(Find(ready, other), map[id := Fresh(id, provider, now)], other)
  }

  lemma QueuedZero(ready: Files, files: Files, provider: nat, now: int, zero: Option<Place>, one: Option<Place>)
    requires Holds(ready, zero, one) && WellPlaced(files) && QueuedOver(ready, files, 0, provider, now)
    ensures Holds(files, Waiting(0, provider, now), one)
  {
  }

  lemma QueuedOne(ready: Files, files: Files, provider: nat, now: int, zero: Option<Place>, one: Option<Place>)
    requires Holds(ready, zero, one) && WellPlaced(files) && QueuedOver(ready, files, 1, provider, now)
    ensures Holds(files, zero, Waiting(1, provider, now))
  {
  }

  /** Queueing a job that is new or died. */
  method QueueAgain(outbox: Outbox, id: nat, provider: nat, now: int, ghost zero: Option<Place>,
                    ghost one: Option<Place>)
    requires outbox.Valid() && outbox.limits == TIGHT_LIMITS && id <= 1
    requires Holds(outbox.files, zero, one) && Quiet(zero, QUEUE_STATES) && Quiet(one, QUEUE_STATES)
    requires var place := if id == 0 then zero else one; place.Some? ==> place.value.job.state.DeadLetter?
    modifies outbox`files, outbox`log, outbox`ledger
    ensures outbox.Valid() && outbox.Issued() == old(outbox.Issued()) && outbox.Losses() == old(outbox.Losses())
    ensures if id == 0 then Holds(outbox.files, Waiting(0, provider, now), one)
            else Holds(outbox.files, zero, Waiting(1, provider, now))
    ensures (if id == 0 then zero else one).Some? ==>
              |outbox.log| > 0 && outbox.log[|outbox.log| - 1] == Rename(Slot(DeadLetter, id))
  {
    ghost var before := outbox.files;
    ghost var settled, ready;
    var outcome;
    outcome, settled, ready := outbox.Queue(id, provider, 0, now);
    QuietHolds(before, settled, ready, QUEUE_STATES, now, zero, one);
    if outcome.Requeued? {
      assert outbox.log[|outbox.log| - 1] == outbox.log[|outbox.log| - 2..][1];
    }
    if id == 0 {
      QueuedZero(ready, outbox.files, provider, now, zero, one);
    } else {
      QueuedOne(ready, outbox.files, provider, now, zero, one);
    }
  }

  // ----- pruning a live job -----

  /** A claim pass at whose time one job of the provider is due, and overdue. */
  lemma OnlyDue(ready: Files, seen: seq<nat>, changes: map<nat, Job>, claimed: seq<Job>, provider: nat, token: nat,
                now: int, id: nat, job: Job)
    requires Slot(Pending, id) in ready && ready[Slot(Pending, id)] == job && DueFor(job, provider, now)
             && job.expiresAt <= now
    requires forall other: nat :: other != id && Slot(Pending, other) in ready ==>
               !DueFor(ready[Slot(Pending, other)], provider, now)
    requires ClaimPass(TIGHT_LIMITS, ready, seen, changes, claimed, provider, [token], now)
             && SeenEnough(ready, seen, claimed, 1)
    ensures changes == map[id := Changed(TIGHT_LIMITS, job, Expired(now))]
  {
    if |claimed| == 1 {
      assert claimed[0].id in changes && claimed[0].id == id;
    }
    assert id in changes;
    assert IsOffer(TIGHT_LIMITS, job, changes[id], claimed, now);
    SameMap(changes, map[id := Changed(TIGHT_LIMITS, job, Expired(now))]);
  }

  /** What is dropped depends only on what `Find` sees. */
  lemma SameView(files: Files, files': Files, changes: map<nat, Job>)
    requires WellPlaced(files) && WellPlaced(files') && forall id: nat :: Find(files, id) == Find(files', id)
    ensures Dropped(TIGHT_LIMITS, files, changes) == Dropped(TIGHT_LIMITS, files', changes)
  {
    forall id: nat ensures (id in DeadAges(files, changes) <==> id in DeadAges(files', changes))
                           && (id in DeadAges(files, changes) && id in DeadAges(files', changes) ==>
                               DeadAges(files, changes)[id] == DeadAges(files', changes)[id])
    {
      DeadAgesAt(files, changes, id);
      DeadAgesAt(files', changes, id);
    }
    SameMap(DeadAges(files, changes), DeadAges(files', changes));
  }

  lemma QuietChanges(before: Files, settled: Files, files: Files, changes: map<nat, Job>, now: int,
                     lostBefore: multiset<nat>, lostAfter: multiset<nat>)
    requires WellPlaced(before) && WellPlaced(settled) && (forall id: nat :: Find(settled, id) == Find(before, id))
    requires Recoveries(TIGHT_LIMITS, settled, now) == map[]
    requires ChangedBy(TIGHT_LIMITS, settled, files, AllChanges(TIGHT_LIMITS, settled, changes, now))
    requires LosesExactly(TIGHT_LIMITS, before, settled, AllChanges(TIGHT_LIMITS, settled, changes, now), lostBefore,
                          lostAfter)
    ensures ChangedBy(TIGHT_LIMITS, before, files, changes)
    ensures LosesExactly(TIGHT_LIMITS, before, before, changes, lostBefore, lostAfter)
  {
    SameMap(AllChanges(TIGHT_LIMITS, settled, changes, now), changes);
    SameView(before, settled, changes);
  }

  lemma PendingHeld(files: Files, zero: Option<Place>, one: Option<Place>)
    requires Holds(files, zero, one)
    ensures forall id: nat :: Slot(Pending, id) in files ==>
              (id == 0 && zero == Some(Place(Pending, files[Slot(Pending, id)]))) ||
              (id == 1 && one == Some(Place(Pending, files[Slot(Pending, id)])))
  {
    forall id: nat | Slot(Pending, id) in files
      ensures Find(files, id) == Some(Place(Pending, files[Slot(Pending, id)])) {
      FindExact(files, Slot(Pending, id));
    }
  }

  lemma OneToken(token: nat)
    ensures Items([token]) == {token}
  {
  }

  /** The provider claims when job `id` is the only one due for it: the job has expired and is buried. */
  method ExpireByClaim(outbox: Outbox, provider: nat, token: nat, now: int, id: nat, ghost zero: Option<Place>,
                       ghost one: Option<Place>, ghost job: Job)
    returns (ghost changes: map<nat, Job>)
    requires outbox.Valid() && outbox.limits == TIGHT_LIMITS && token !in outbox.Issued() && id <= 1
    requires Holds(outbox.files, zero, one) && Quiet(zero, CLAIM_STATES) && Quiet(one, CLAIM_STATES)
    requires OneIsDue(provider, now, id, zero, one, job)
    modifies outbox`files, outbox`log, outbox`ledger
    ensures outbox.Valid() && old(outbox.log) <= outbox.log && outbox.Issued() <= old(outbox.Issued()) + {token}
    ensures changes == map[id := Changed(TIGHT_LIMITS, job, Expired(now))]
    ensures ChangedBy(TIGHT_LIMITS, old(outbox.files), outbox.files, changes)
    ensures LosesExactly(TIGHT_LIMITS, old(outbox.files), old(outbox.files), changes, old(outbox.Losses()),
                         outbox.Losses())
  {
    ghost var before := outbox.files;
    ghost var settled, ready, seen;
    var claimed;
    OneToken(token);
    claimed, settled, ready, seen, changes := outbox.ClaimJobs(provider, 1, [token], now);
    QuietHolds(before, settled, ready, CLAIM_STATES, now, zero, one);
    DueOfTwo(ready, provider, now, id, zero, one, job);
    OnlyDue(ready, seen, changes, claimed, provider, token, now, id, job);
    QuietChanges(before, settled, outbox.files, changes, now, old(outbox.Losses()), outbox.Losses());
  }

  predicate OneIsDue(provider: nat, now: int, id: nat, zero: Option<Place>, one: Option<Place>, job: Job) {
    && (if id == 0 then zero else one) == Some(Place(Pending, job)) && DueFor(job, provider, now)
    && job.expiresAt <= now
    && var other := if id == 0 then one else zero;
       other.Some? && other.value.dir.Pending? ==> !DueFor(other.value.job, provider, now)
  }

  lemma DueOfTwo(ready: Files, provider: nat, now: int, id: nat, zero: Option<Place>, one: Option<Place>, job: Job)
    requires Holds(ready, zero, one) && OneIsDue(provider, now, id, zero, one, job) && id <= 1
    ensures Slot(Pending, id) in ready && ready[Slot(Pending, id)] == job
    ensures forall other: nat :: other != id && Slot(Pending, other) in ready ==>
              !DueFor(ready[Slot(Pending, other)], provider, now)
  {
    PendingHeld(ready, zero, one);
    FindExact(ready, Slot(Pending, id));
  }

  lemma EmptyStore()
    ensures Legal(TIGHT_LIMITS, []) && Reached(TIGHT_LIMITS, []).files == map[]
    ensures Holds(map[], None, None)
  {
  }

  /** Jobs 0 and 1 of two providers are queued half a minute apart; the first provider's claim a minute
      later finds its job expired. */
  method FirstDies() returns (outbox: Outbox)
    ensures fresh(outbox) && outbox.Valid() && outbox.limits == TIGHT_LIMITS
    ensures Holds(outbox.files, Dead(0, 0, 0, 60_000), Waiting(1, 1, 30_000))
    ensures outbox.Issued() <= {0} && outbox.Losses() == multiset{}
  {
    EmptyStore();
    outbox := new Outbox(TIGHT_LIMITS, map[], []);
    QueueAgain(outbox, 0, 0, 0, None, None);
    QueueAgain(outbox, 1, 1, 30_000, Waiting(0, 0, 0), None);
    ghost var before := outbox.files;
    ghost var changes := ExpireByClaim(outbox, 0, 0, 60_000, 0, Waiting(0, 0, 0), Waiting(1, 1, 30_000),
                                       Fresh(0, 0, 0));
    FirstDeath(before, outbox.files, changes, outbox.Losses());
  }

  lemma FirstDeath(before: Files, files: Files, changes: map<nat, Job>, lost: multiset<nat>)
    requires Holds(before, Waiting(0, 0, 0), Waiting(1, 1, 30_000)) && changes == map[0 := Died(0, 0, 0, 60_000)]
    requires WellPlaced(files) && ChangedBy(TIGHT_LIMITS, before, files, changes)
    requires LosesExactly(TIGHT_LIMITS, before, before, changes, multiset{}, lost)
    ensures Holds(files, Dead(0, 0, 0, 60_000), Waiting(1, 1, 30_000)) && lost == multiset{}
  {
    OneCandidate(before, changes);
    NothingToLose(before, Waiting(0, 0, 0), Waiting(1, 1, 30_000));
    assert {} * Dropped(TIGHT_LIMITS, before, changes) == {};
    DeathOfZero(before, files, changes);
  }

  lemma NothingToLose(files: Files, zero: Option<Place>, one: Option<Place>)
    requires Holds(files, zero, one) && !Misplaced(zero) && !Misplaced(one)
    ensures MisplacedIds(files) == {}
  {
    MisplacedFind(files);
  }

  lemma DeathOfZero(before: Files, files: Files, changes: map<nat, Job>)
    requires Holds(before, Waiting(0, 0, 0), Waiting(1, 1, 30_000)) && changes == map[0 := Died(0, 0, 0, 60_000)]
    requires WellPlaced(files) && forall id: nat :: Find(files, id) == After(Find(before, id), changes, id)
    ensures Holds(files, Dead(0, 0, 0, 60_000), Waiting(1, 1, 30_000))
  {
  }

  lemma OneCandidate(before: Files, changes: map<nat, Job>)
    requires Holds(before, Waiting(0, 0, 0), Waiting(1, 1, 30_000)) && changes == map[0 := Died(0, 0, 0, 60_000)]
    ensures Dropped(TIGHT_LIMITS, before, changes) == {}
  {
    var ages := DeadAges(before, changes);
    forall id: nat ensures id in ages <==> id == 0 {
      DeadAgesAt(before, changes, id);
    }
    assert NewerThan(ages, 0) == {};
  }

  /** The dead job is queued again, and the process crashes before the last disk operation of that call. */
  method CrashedRequeue() returns (files: Files, ghost crashed: seq<DiskOp>)
    ensures Legal(TIGHT_LIMITS, crashed) && Reached(TIGHT_LIMITS, crashed).files == files
    ensures Holds(files, Stray(0, 0, 60_001), Waiting(1, 1, 30_000))
    ensures Reached(TIGHT_LIMITS, crashed).issued <= {0} && Lost(TIGHT_LIMITS, crashed) == multiset{}
  {
    var outbox := FirstDies();
    QueueAgain(outbox, 0, 0, 60_001, Dead(0, 0, 0, 60_000), Waiting(1, 1, 30_000));
    crashed := outbox.log[..|outbox.log| - 1];
    BeforeRename(outbox.log, outbox.ledger, Slot(DeadLetter, 0));
    Unmoved(Reached(TIGHT_LIMITS, crashed).files, outbox.files, Fresh(0, 0, 60_001), Waiting(1, 1, 30_000));
    files := (outbox.files - {Slot(Pending, 0)})[Slot(DeadLetter, 0) := Fresh(0, 0, 60_001)];
  }

  lemma BeforeRename(log: seq<DiskOp>, ledger: Ledger, slot: Slot)
    requires ValidLimits(TIGHT_LIMITS) && Recorded(TIGHT_LIMITS, log, ledger) && log != []
             && log[|log| - 1] == Rename(slot)
    ensures var init := log[..|log| - 1];
            && Legal(TIGHT_LIMITS, init) && OpAllowed(TIGHT_LIMITS, Reached(TIGHT_LIMITS, init), Rename(slot))
            && WellPlaced(Reached(TIGHT_LIMITS, init).files)
            && ledger.world.files == Moved(Reached(TIGHT_LIMITS, init).files, slot)
            && Reached(TIGHT_LIMITS, init).issued == ledger.world.issued && Lost(TIGHT_LIMITS, init) == ledger.lost
  {
    RecordedOpen(TIGHT_LIMITS, log, ledger);
    ReachedInv(TIGHT_LIMITS, log[..|log| - 1]);
  }

  /** A rename of job 0 from the dead letters to pending undone. */
  lemma Unmoved(was: Files, files: Files, job: Job, one: Option<Place>)
    requires WellPlaced(was) && Slot(DeadLetter, 0) in was && was[Slot(DeadLetter, 0)].state != DeadLetter
    requires files == Moved(was, Slot(DeadLetter, 0)) && Holds(files, Some(Place(Pending, job)), one)
    ensures was == (files - {Slot(Pending, 0)})[Slot(DeadLetter, 0) := job]
    ensures Holds(was, Some(Place(DeadLetter, job)), one)
  {
    MovedFind(was, Slot(DeadLetter, 0));
    assert Find(files, Slot(DeadLetter, 0).id) == Some(Place(Pending, job));
    assert was[Slot(DeadLetter, 0)] == job && was[Slot(DeadLetter, 0)].state == Pending;
    FindExact(was, Slot(DeadLetter, 0));
  }

  /** Without a janitor pass, pruning can take a live job. Job 0 dies and is queued again, but the process
      crashes before the rename; another process, already running, then finds job 1 expired when its
      provider claims, buries it, and cuts the dead letters back to one: job 0 is gone for good. */
  method RequeuedJobMayBePruned() returns (outbox: Outbox, ghost crashed: seq<DiskOp>)
    ensures fresh(outbox) && outbox.Valid() && outbox.limits == TIGHT_LIMITS
    ensures Legal(TIGHT_LIMITS, crashed) && crashed <= outbox.log
    ensures FindJob(Reached(TIGHT_LIMITS, crashed).files, 0) == Some(Fresh(0, 0, 60_001))
    ensures FindJob(outbox.files, 0).None? && outbox.Losses() == multiset{0}
  {
    var files;
    files, crashed := CrashedRequeue();
    outbox := new Outbox(TIGHT_LIMITS, files, crashed);
    ghost var changes := ExpireByClaim(outbox, 1, 1, 90_000, 1, Stray(0, 0, 60_001), Waiting(1, 1, 30_000),
                                       Fresh(1, 1, 30_000));
    SecondDeath(files, outbox.files, changes, outbox.Losses());
  }

  lemma SecondDeath(before: Files, files: Files, changes: map<nat, Job>, lost: multiset<nat>)
    requires Holds(before, Stray(0, 0, 60_001), Waiting(1, 1, 30_000))
             && changes == map[1 := Died(1, 1, 30_000, 90_000)]
    requires ChangedBy(TIGHT_LIMITS, before, files, changes)
    requires LosesExactly(TIGHT_LIMITS, before, before, changes, multiset{}, lost)
    ensures FindJob(files, 0).None? && lost == multiset{0}
  {
    TwoCandidates(before, changes);
    StrayMisplaced(before, 60_001, Waiting(1, 1, 30_000));
    OneLost(Dropped(TIGHT_LIMITS, before, changes), lost);
  }

  lemma StrayMisplaced(files: Files, queuedAt: int, one: Option<Place>)
    requires Holds(files, Stray(0, 0, queuedAt), one) && !Misplaced(one)
    ensures MisplacedIds(files) == {0}
  {
    MisplacedFind(files);
    forall id: nat ensures id in MisplacedIds(files) <==> id == 0 {
      assert Misplaced(Find(files, id)) <==> id == 0;
    }
  }

  lemma OneLost(dropped: set<nat>, lost: multiset<nat>)
    requires 0 in dropped && lost == multiset{} + multiset({0} * dropped)
    ensures lost == multiset{0}
  {
    assert {0} * dropped == {0};
  }

  lemma TwoCandidates(before: Files, changes: map<nat, Job>)
    requires Holds(before, Stray(0, 0, 60_001), Waiting(1, 1, 30_000))
             && changes == map[1 := Died(1, 1, 30_000, 90_000)]
    ensures 0 in Dropped(TIGHT_LIMITS, before, changes)
  {
    var ages := DeadAges(before, changes);
    forall id: nat ensures id in ages <==> id == 0 || id == 1 {
      DeadAgesAt(before, changes, id);
    }
    DeadAgesAt(before, changes, 0);
    DeadAgesAt(before, changes, 1);
    assert ages[0] == 60_001 && ages[1] == 90_000;
    assert NewerThan(ages, 0) == {1};
    assert 1 in BuriedAges(changes);
  }

  // ----- the janitor drops a newer dead letter -----

  method QueueLargerFirst() returns (outbox: Outbox)
    ensures fresh(outbox) && outbox.Valid() && outbox.limits == TIGHT_LIMITS
    ensures Holds(outbox.files, Waiting(0, 0, 30_000), Waiting(1, 0, 0))
  {
    EmptyStore();
    outbox := new Outbox(TIGHT_LIMITS, map[], []);
    QueueAgain(outbox, 1, 0, 0, None, None);
    QueueAgain(outbox, 0, 0, 30_000, None, Waiting(1, 0, 0));
  }

  /** The janitor keeps the dead letter with the larger name, although it died half a minute earlier. */
  method NewerDeadLetterDropped() returns (outbox: Outbox, ghost newer: Job, ghost older: Job)
    ensures fresh(outbox) && outbox.Valid() && outbox.limits == TIGHT_LIMITS
    ensures newer == Died(0, 0, 30_000, 90_000) && older == Died(1, 0, 0, 60_000)
    ensures newer.deadLetteredAt == Some(90_000) && older.deadLetteredAt == Some(60_000)
    ensures FindJob(outbox.files, newer.id).None? && FindJob(outbox.files, older.id) == Some(older)
  {
    newer, older := Died(0, 0, 30_000, 90_000), Died(1, 0, 0, 60_000);
    outbox := QueueLargerFirst();
    FirstRun(outbox);
    SecondRun(outbox);
  }

  method FirstRun(outbox: Outbox)
    requires outbox.Valid() && outbox.limits == TIGHT_LIMITS
             && Holds(outbox.files, Waiting(0, 0, 30_000), Waiting(1, 0, 0))
    modifies outbox`files, outbox`log, outbox`ledger
    ensures outbox.Valid() && Holds(outbox.files, Waiting(0, 0, 30_000), Dead(1, 0, 0, 60_000))
  {
    ghost var before := outbox.files;
    ghost var names;
    var reconciled, expired;
    reconciled, expired, names := outbox.RunJanitor(60_000);
    JanitorOnTwo(before, Waiting(0, 0, 30_000), Waiting(1, 0, 0), 60_000);
    OneName(names, 1);
  }

  method SecondRun(outbox: Outbox)
    requires outbox.Valid() && outbox.limits == TIGHT_LIMITS
             && Holds(outbox.files, Waiting(0, 0, 30_000), Dead(1, 0, 0, 60_000))
    modifies outbox`files, outbox`log, outbox`ledger
    ensures outbox.Valid() && FindJob(outbox.files, 0).None? && FindJob(outbox.files, 1) == Some(Died(1, 0, 0, 60_000))
  {
    ghost var before := outbox.files;
    ghost var names;
    var reconciled, expired;
    reconciled, expired, names := outbox.RunJanitor(90_000);
    JanitorOnTwo(before, Waiting(0, 0, 30_000), Dead(1, 0, 0, 60_000), 90_000);
    TwoNames(names);
    assert Find(outbox.files, 0).None? && Find(outbox.files, 1) == Dead(1, 0, 0, 60_000);
  }

  /** What the janitor makes of a job that is pending or dead, before it prunes. */
  function Aged(place: Option<Place>, now: int): Option<Place> {
    if place.Some? && place.value.dir.Pending? && place.value.job.expiresAt <= now then
      Some(Place(DeadLetter, Changed(TIGHT_LIMITS, place.value.job, Expired(now))))
    else
      place
  }

  predicate PendingOrDead(place: Option<Place>) {
    place.Some? ==>
      (place.value.dir.Pending? || place.value.dir.DeadLetter?) && place.value.job.state == place.value.dir
  }

  lemma JanitorOnOne(place: Option<Place>, now: int)
    requires PendingOrDead(place)
    ensures AfterJanitor(TIGHT_LIMITS, place, now) == Aged(place, now)
  {
    assert ALL_STATES == [Pending, Inflight, Delivered, Completed, DeadLetter];
    assert ALL_STATES[0] == Pending && ALL_STATES[4] == DeadLetter;
  }

  lemma JanitorOnTwo(before: Files, zero: Option<Place>, one: Option<Place>, now: int)
    requires Holds(before, zero, one) && PendingOrDead(zero) && PendingOrDead(one)
    ensures forall id: nat ::
              AfterJanitor(TIGHT_LIMITS, Find(before, id), now) ==
                if id == 0 then Aged(zero, now) else if id == 1 then Aged(one, now) else None
    ensures forall id: nat ::
              DeadAfterJanitor(TIGHT_LIMITS, before, now, id) <==>
                (id == 0 && IsDead(Aged(zero, now))) || (id == 1 && IsDead(Aged(one, now)))
  {
    JanitorOnOne(zero, now);
    JanitorOnOne(one, now);
    JanitorOnOne(None, now);
  }

  lemma OneName(names: seq<nat>, id: nat)
    requires Ascending(names) && forall other: nat :: other in names <==> other == id
    ensures FirstNames(names, 1) == []
  {
    ListingUnique(names, [id], {id});
  }

  lemma TwoNames(names: seq<nat>)
    requires Ascending(names) && forall id: nat :: id in names <==> id == 0 || id == 1
    ensures FirstNames(names, 1) == [0]
  {
    ListingUnique(names, [0, 1], {0, 1});
  }
}
