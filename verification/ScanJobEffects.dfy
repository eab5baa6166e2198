/**
 What the outbox operations do to the job files, as seen through `Find`, and the lemmas that put the
 effects of single steps together.
 */
module ScanJobEffects {
  import opened Prelude
  import opened ScanJobs
  import opened ScanJobFiles
  import opened Retention

  const ALL_STATES: seq<State> := [Pending, Inflight, Delivered, Completed, DeadLetter]

  /** Where reconciling these directories puts a job. */
  function Settled(sources: seq<State>, place: Option<Place>): Option<Place> {
    if place.Some? && place.value.dir in sources then Some(Place(place.value.job.state, place.value.job)) else place
  }

  ghost predicate Reconciled(before: Files, settled: Files, sources: seq<State>) {
    forall id: nat :: Find(settled, id) == Settled(sources, Find(before, id))
  }

  lemma ReconciledMore(before: Files, was: Files, files: Files, sources: seq<State>, k: nat)
    requires k < |sources| && Reconciled(before, was, sources[..k])
    requires forall id: nat :: Find(files, id) == Settled([sources[k]], Find(was, id))
    ensures Reconciled(before, files, sources[..k + 1]) && sources[k] in sources
  {
    assert sources[..k + 1] == sources[..k] + [sources[k]];
    forall id: nat ensures Find(files, id) == Settled(sources[..k + 1], Find(before, id)) {
      assert Find(was, id) == Settled(sources[..k], Find(before, id));
    }
  }

  /** Every record in these directories lies where its state says. */
  ghost predicate SettledInAll(files: Files, sources: seq<State>) {
    forall dir :: dir in sources ==> SettledIn(files, dir)
  }

  lemma SettledInMore(files: Files, sources: seq<State>, k: nat)
    requires k < |sources|
    ensures SettledInAll(files, sources[..k + 1]) <==> SettledInAll(files, sources[..k]) && SettledIn(files, sources[k])
  {
    assert sources[..k + 1] == sources[..k] + [sources[k]];
  }

  function After(base: Option<Place>, changes: map<nat, Job>, id: nat): Option<Place> {
    if id in changes then Some(Place(changes[id].state, changes[id])) else base
  }

  // ----- changed records, and what the dead-letter limit then drops -----

  /** The changed jobs that end as dead letters, with the age the retention limit goes by. */
  function BuriedAges(changes: map<nat, Job>): map<nat, int> {
    map id | id in changes && changes[id].state.DeadLetter? :: Age(DeadLetter, changes[id])
  }

  /** The dead-letter directory after these changes, before it is cut back to its limit. */
  function DeadAges(files: Files, changes: map<nat, Job>): map<nat, int> {
    (AgesIn(files, DeadLetter) - changes.Keys) + BuriedAges(changes)
  }

  function CutBack(limit: nat, buried: map<nat, int>, ages: map<nat, int>): set<nat> {
    if buried == map[] then {} else Excess(ages, limit)
  }

  /** What falls to the dead-letter limit: nothing unless something was buried. */
  function Dropped(l: Limits, files: Files, changes: map<nat, Job>): set<nat> {
    CutBack(l.deadLetters, BuriedAges(changes), DeadAges(files, changes))
  }

  /** These jobs changed and moved, the dead letters over the limit are gone, and nothing else happened. */
  ghost predicate ChangedBy(l: Limits, before: Files, files: Files, changes: map<nat, Job>) {
    forall id: nat :: Find(files, id) ==
      if id in Dropped(l, before, changes) then None else After(Find(before, id), changes, id)
  }

  lemma NothingChanged(l: Limits, files: Files)
    ensures ChangedBy(l, files, files, map[])
  {
    assert BuriedAges(map[]) == map[];
  }

  predicate IsDead(place: Option<Place>) {
    place.Some? && place.value.dir.DeadLetter?
  }

  lemma AgesInAt(files: Files, id: nat)
    requires WellPlaced(files)
    ensures id in AgesIn(files, DeadLetter) <==> IsDead(Find(files, id))
    ensures id in AgesIn(files, DeadLetter) ==>
              AgesIn(files, DeadLetter)[id] == Age(DeadLetter, Find(files, id).value.job)
  {
    FindExact(files, Slot(DeadLetter, id));
    assert Slot(DeadLetter, id).id == id && Slot(DeadLetter, id).dir == DeadLetter;
    if id in AgesIn(files, DeadLetter) {
      var s :| s in files && s.dir == DeadLetter && s.id == id;
      assert s == Slot(DeadLetter, id);
    }
  }

  /** Only dead letters count towards the limit and can be dropped. */
  lemma DeadAgesAt(files: Files, changes: map<nat, Job>, id: nat)
    requires WellPlaced(files)
    ensures var place := After(Find(files, id), changes, id);
            && (id in DeadAges(files, changes) <==> IsDead(place))
            && (IsDead(place) && id in DeadAges(files, changes) ==>
                DeadAges(files, changes)[id] == Age(DeadLetter, place.value.job))
  {
    AgesInAt(files, id);
  }

  lemma SameMap<V>(a: map<nat, V>, b: map<nat, V>)
    requires forall id: nat :: (id in a <==> id in b) && (id in a && id in b ==> a[id] == b[id])
    ensures a == b
  {
  }

  /** The ages among the dead letters once these jobs changed and those are gone. */
  lemma AgesAfter(before: Files, files: Files, changes: map<nat, Job>, gone: set<nat>)
    requires WellPlaced(before) && WellPlaced(files)
    requires forall id: nat :: Find(files, id) == if id in gone then None else After(Find(before, id), changes, id)
    ensures AgesIn(files, DeadLetter) == DeadAges(before, changes) - gone
  {
    var actual, expected := AgesIn(files, DeadLetter), DeadAges(before, changes);
    forall id: nat
      ensures (id in actual <==> id in expected - gone)
              && (id in actual && id in expected - gone ==> actual[id] == (expected - gone)[id])
    {
      AgesInAt(files, id);
      DeadAgesAt(before, changes, id);
    }
    SameMap(actual, expected - gone);
  }

  /** No change concerns a file among the dead letters. */
  ghost predicate FromElsewhere(files: Files, changes: map<nat, Job>) {
    forall id: nat :: id in changes ==> Find(files, id).Some? && !Find(files, id).value.dir.DeadLetter?
  }

  lemma BuriedTwice(first: map<nat, Job>, more: map<nat, Job>)
    requires forall id: nat :: id in more ==> id !in BuriedAges(first)
    ensures BuriedAges(first + more) == BuriedAges(first) + BuriedAges(more)
  {
    SameMap(BuriedAges(first + more), BuriedAges(first) + BuriedAges(more));
  }

  lemma StillElsewhere(l: Limits, before: Files, was: Files, first: map<nat, Job>, more: map<nat, Job>)
    requires WellPlaced(before) && ChangedBy(l, before, was, first) && FromElsewhere(was, more)
    ensures forall id: nat :: id in more ==> id !in DeadAges(before, first) && id !in BuriedAges(first)
  {
    forall id: nat | id in more ensures id !in DeadAges(before, first) && id !in BuriedAges(first) {
      DeadAgesAt(before, first, id);
      assert Find(was, id).Some?;
    }
  }

  lemma AgesOfBoth(before: Files, first: map<nat, Job>, more: map<nat, Job>)
    requires WellPlaced(before) && forall id: nat :: id in more ==> id !in DeadAges(before, first)
    ensures DeadAges(before, first + more) == DeadAges(before, first) + BuriedAges(more)
  {
    var both, dead, buried := DeadAges(before, first + more), DeadAges(before, first), BuriedAges(more);
    forall id: nat
      ensures (id in both <==> id in dead + buried)
              && (id in both && id in dead + buried ==> both[id] == (dead + buried)[id])
    {
      DeadAgesAt(before, first + more, id);
      DeadAgesAt(before, first, id);
    }
    SameMap(both, dead + buried);
  }

  lemma AgesTwice(l: Limits, before: Files, was: Files, first: map<nat, Job>, more: map<nat, Job>)
    requires WellPlaced(before) && WellPlaced(was) && ChangedBy(l, before, was, first)
    requires forall id: nat :: id in more ==> id !in DeadAges(before, first)
    ensures DeadAges(was, more) == (DeadAges(before, first) - Dropped(l, before, first)) + BuriedAges(more)
  {
    var gone := Dropped(l, before, first);
    AgesAfter(before, was, first, gone);
    SameMap(DeadAges(was, more), (DeadAges(before, first) - gone) + BuriedAges(more));
  }

  /** Burying some jobs, cutting back, burying more and cutting back again drops what burying all of them
      and cutting back once would drop. */
  lemma DroppedTwice(l: Limits, before: Files, was: Files, first: map<nat, Job>, more: map<nat, Job>)
    requires WellPlaced(before) && WellPlaced(was) && ChangedBy(l, before, was, first) && FromElsewhere(was, more)
    ensures Dropped(l, before, first + more) == Dropped(l, before, first) + Dropped(l, was, more)
  {
    StillElsewhere(l, before, was, first, more);
    BuriedTwice(first, more);
    AgesOfBoth(before, first, more);
    AgesTwice(l, before, was, first, more);
    CutBackTwice(l.deadLetters, BuriedAges(first), DeadAges(before, first), BuriedAges(more));
  }

  lemma CutBackTwice(limit: nat, first: map<nat, int>, ages: map<nat, int>, more: map<nat, int>)
    requires forall id: nat :: id in more ==> id !in ages
    ensures CutBack(limit, first + more, ages + more) ==
            CutBack(limit, first, ages) + CutBack(limit, more, (ages - CutBack(limit, first, ages)) + more)
  {
    if more == map[] {
      assert first + more == first && ages + more == ages;
    } else {
      var id :| id in more;
      assert id in first + more;
      if first == map[] {
        assert ages - {} == ages;
      } else {
        CutTwice(ages, more, limit);
      }
    }
  }

  lemma ChangedTwice(l: Limits, before: Files, was: Files, files: Files, first: map<nat, Job>, more: map<nat, Job>)
    requires WellPlaced(before) && WellPlaced(was)
    requires ChangedBy(l, before, was, first) && ChangedBy(l, was, files, more) && FromElsewhere(was, more)
    ensures ChangedBy(l, before, files, first + more)
  {
    DroppedTwice(l, before, was, first, more);
    forall id: nat
      ensures Find(files, id) ==
              if id in Dropped(l, before, first + more) then None else After(Find(before, id), first + more, id)
    {
      FoundTwice(Find(before, id), Find(was, id), Find(files, id), first, more, Dropped(l, before, first),
                 Dropped(l, was, more), id);
    }
  }

  lemma FoundTwice(before: Option<Place>, was: Option<Place>, found: Option<Place>, first: map<nat, Job>,
                   more: map<nat, Job>, gone: set<nat>, goneThen: set<nat>, id: nat)
    requires was == if id in gone then None else After(before, first, id)
    requires found == if id in goneThen then None else After(was, more, id)
    requires id in more ==> was.Some?
    ensures found == if id in gone + goneThen then None else After(before, first + more, id)
  {
  }

  lemma ChangeOneMore(l: Limits, before: Files, was: Files, files: Files, changes: map<nat, Job>, job: Job)
    requires WellPlaced(before) && WellPlaced(was)
    requires Find(was, job.id).Some? && !Find(was, job.id).value.dir.DeadLetter?
    requires ChangedBy(l, before, was, changes) && ChangedBy(l, was, files, map[job.id := job])
    ensures ChangedBy(l, before, files, changes[job.id := job])
  {
    ChangedTwice(l, before, was, files, changes, map[job.id := job]);
    OneMore(changes, job);
  }

  lemma OneMore(changes: map<nat, Job>, job: Job)
    ensures changes + map[job.id := job] == changes[job.id := job]
  {
  }

  /** A file outside the dead letters that did not change is still where it was. */
  lemma StillInPlace(l: Limits, before: Files, files: Files, changes: map<nat, Job>, slot: Slot)
    requires WellPlaced(before) && WellPlaced(files) && ChangedBy(l, before, files, changes)
    requires slot in before && !slot.dir.DeadLetter? && slot.id !in changes
    ensures slot in files && files[slot] == before[slot]
  {
    FindExact(before, slot);
    DeadAgesAt(before, changes, slot.id);
    FindExact(files, slot);
  }

  // ----- taking back lapsed claims -----

  /** What a pass over the inflight directory makes of the claims that are over. */
  function Recoveries(l: Limits, files: Files, now: int): map<nat, Job> {
    map s | s in files && s.dir.Inflight? && ClaimOver(files[s], now) :: s.id := Changed(l, files[s], ClaimLapsed(now))
  }

  lemma RecoveriesAt(l: Limits, files: Files, now: int, id: nat)
    ensures var slot := Slot(Inflight, id);
            && (id in Recoveries(l, files, now) <==> slot in files && ClaimOver(files[slot], now))
            && (id in Recoveries(l, files, now) && slot in files ==>
                  Recoveries(l, files, now)[id] == Changed(l, files[slot], ClaimLapsed(now)))
  {
    var slot := Slot(Inflight, id);
    assert slot.id == id && slot.dir.Inflight?;
    if id in Recoveries(l, files, now) {
      var s :| s in files && s.dir.Inflight? && ClaimOver(files[s], now) && s.id == id;
      assert s == slot;
    }
  }

  /** Taking back a claim that is over: the job is due again as long as it has attempts left and has not expired,
      and is given up otherwise. */
  predicate TakenBack(l: Limits, was: Job, job: Job, now: int) {
    if was.attempts < l.maxAttempts && now < was.expiresAt then DueAgain(was, job, ClaimRecovered, now)
    else GivenUp(was, job, CLAIM_EXPIRED, now)
  }

  lemma RecoveryMeans(l: Limits, files: Files, now: int, id: nat)
    requires Slot(Inflight, id) in files && files[Slot(Inflight, id)].state.Inflight?
    requires JobInv(l, files[Slot(Inflight, id)])
    ensures var slot := Slot(Inflight, id);
            && (id in Recoveries(l, files, now) <==> files[slot].claimExpiresAt.value <= now)
            && (id in Recoveries(l, files, now) ==> TakenBack(l, files[slot], Recoveries(l, files, now)[id], now))
  {
    RecoveriesAt(l, files, now, id);
    if ClaimOver(files[Slot(Inflight, id)], now) {
      ChangeMeans(l, files[Slot(Inflight, id)], ClaimLapsed(now));
    }
  }

  /** The job lies where its state says; only as a dead letter may it have gone over the limit at once. */
  ghost predicate Went(files: Files, job: Job) {
    Find(files, job.id) == Some(Place(job.state, job)) || (job.state.DeadLetter? && Find(files, job.id).None?)
  }

  /** Every claim that was over is taken back. */
  ghost predicate TookBack(l: Limits, before: Files, files: Files, now: int) {
    forall id: nat ::
      var slot := Slot(Inflight, id);
      slot in before && before[slot].claimExpiresAt.Some? && before[slot].claimExpiresAt.value <= now ==>
        exists job :: TakenBack(l, before[slot], job, now) && Went(files, job)
  }

  lemma RecoveriesTookBack(l: Limits, before: Files, files: Files, now: int)
    requires WellPlaced(before) && SettledIn(before, Inflight) && (forall s :: s in before ==> JobInv(l, before[s]))
    requires ChangedBy(l, before, files, Recoveries(l, before, now))
    ensures TookBack(l, before, files, now)
  {
    var recovered := Recoveries(l, before, now);
    forall id: nat | Slot(Inflight, id) in before && before[Slot(Inflight, id)].claimExpiresAt.Some?
                     && before[Slot(Inflight, id)].claimExpiresAt.value <= now
      ensures exists job :: TakenBack(l, before[Slot(Inflight, id)], job, now) && Went(files, job)
    {
      RecoveryMeans(l, before, now, id);
      ChangedWent(l, before, files, recovered, id);
      assert TakenBack(l, before[Slot(Inflight, id)], recovered[id], now);
    }
  }

  /** Only dead letters are dropped. */
  lemma ChangedWent(l: Limits, before: Files, files: Files, changes: map<nat, Job>, id: nat)
    requires WellPlaced(before) && ChangedBy(l, before, files, changes) && id in changes && changes[id].id == id
    ensures Went(files, changes[id])
  {
    DeadAgesAt(before, changes, id);
  }

  /** One pass over the inflight directory: exactly the claims that are over were taken back. */
  ghost predicate RecoveredFrom(l: Limits, before: Files, changes: map<nat, Job>, names: seq<nat>, now: int) {
    forall id: nat ::
      var slot := Slot(Inflight, id);
      && (id in changes <==> id in names && slot in before && ClaimOver(before[slot], now))
      && (id in changes && slot in before ==> changes[id] == Changed(l, before[slot], ClaimLapsed(now)))
  }

  /** The recovery loop after `i` names. */
  ghost predicate Recovering(l: Limits, before: Files, files: Files, changes: map<nat, Job>, names: seq<nat>, i: nat,
                             now: int)
  {
    && WellPlaced(before) && Lists(names, IdsIn(before, Inflight)) && i <= |names|
    && ChangedBy(l, before, files, changes) && RecoveredFrom(l, before, changes, names[..i], now)
  }

  lemma RecoverNext(l: Limits, before: Files, files: Files, changes: map<nat, Job>, names: seq<nat>, i: nat, now: int)
    requires Recovering(l, before, files, changes, names, i, now) && WellPlaced(files) && i < |names|
    ensures var slot := Slot(Inflight, names[i]);
            && slot in before && slot in files && files[slot] == before[slot]
            && (!ClaimOver(files[slot], now) ==> Recovering(l, before, files, changes, names, i + 1, now))
  {
    IdsInFind(before, Inflight);
    assert names[i] in names && names[i] !in names[..i];
    StillInPlace(l, before, files, changes, Slot(Inflight, names[i]));
    assert names[..i + 1] == names[..i] + [names[i]];
  }

  lemma RecoverStep(l: Limits, before: Files, was: Files, files: Files, changes: map<nat, Job>, names: seq<nat>, i: nat,
                    now: int, job: Job)
    requires Recovering(l, before, was, changes, names, i, now) && WellPlaced(was) && i < |names|
    requires Slot(Inflight, names[i]) in before && ClaimOver(before[Slot(Inflight, names[i])], now)
    requires Slot(Inflight, names[i]) in was
    requires job == Changed(l, before[Slot(Inflight, names[i])], ClaimLapsed(now)) && job.id == names[i]
    requires ChangedBy(l, was, files, map[job.id := job])
    ensures Recovering(l, before, files, changes[job.id := job], names, i + 1, now)
  {
    InElsewhere(was, Slot(Inflight, names[i]));
    ChangeOneMore(l, before, was, files, changes, job);
    RecoveredOneMore(l, before, changes, names, i, now, job);
  }

  lemma InElsewhere(files: Files, slot: Slot)
    requires WellPlaced(files) && slot in files && !slot.dir.DeadLetter?
    ensures Find(files, slot.id).Some? && !Find(files, slot.id).value.dir.DeadLetter?
  {
    FindExact(files, slot);
  }

  lemma RecoveredOneMore(l: Limits, before: Files, changes: map<nat, Job>, names: seq<nat>, i: nat, now: int, job: Job)
    requires i < |names| && RecoveredFrom(l, before, changes, names[..i], now)
    requires Slot(Inflight, names[i]) in before && ClaimOver(before[Slot(Inflight, names[i])], now)
    requires job == Changed(l, before[Slot(Inflight, names[i])], ClaimLapsed(now)) && job.id == names[i]
    ensures RecoveredFrom(l, before, changes[job.id := job], names[..i + 1], now)
  {
    assert names[..i + 1] == names[..i] + [names[i]];
  }

  lemma RecoveredAll(l: Limits, before: Files, files: Files, changes: map<nat, Job>, names: seq<nat>, now: int)
    requires WellPlaced(before) && Lists(names, IdsIn(before, Inflight))
    requires RecoveredFrom(l, before, changes, names, now) && ChangedBy(l, before, files, changes)
    ensures ChangedBy(l, before, files, Recoveries(l, before, now))
  {
    RecoveredAreAll(l, before, changes, names, now);
  }

  lemma RecoveredAreAll(l: Limits, before: Files, changes: map<nat, Job>, names: seq<nat>, now: int)
    requires WellPlaced(before) && Lists(names, IdsIn(before, Inflight))
             && RecoveredFrom(l, before, changes, names, now)
    ensures changes == Recoveries(l, before, now)
  {
    var all := Recoveries(l, before, now);
    IdsInFind(before, Inflight);
    forall id: nat ensures (id in changes <==> id in all) && (id in changes && id in all ==> changes[id] == all[id]) {
      RecoveriesAt(l, before, now, id);
    }
    SameMap(changes, all);
  }

  /** What every operation does first: `settled` has these directories reconciled, and in `ready` the
      lapsed claims are taken back as well. */
  ghost predicate MaintainedTo(l: Limits, before: Files, settled: Files, ready: Files, sources: seq<State>, now: int) {
    && WellPlaced(settled) && WellPlaced(ready)
    && Reconciled(before, settled, sources)
    && ChangedBy(l, settled, ready, Recoveries(l, settled, now))
  }

  /** Maintenance leaves the directories it reconciled in order. */
  lemma MaintainedSettled(l: Limits, before: Files, settled: Files, files: Files, sources: seq<State>, now: int)
    requires WellPlaced(before) && MaintainedTo(l, before, settled, files, sources, now)
    ensures forall dir :: dir in sources ==> SettledIn(files, dir)
  {
    forall dir, s | dir in sources && s in files && s.dir == dir ensures files[s].state == dir {
      FindExact(files, s);
      assert Find(settled, s.id) == Settled(sources, Find(before, s.id));
    }
  }

  /** Where nothing is out of place and no claim is over, maintenance changes nothing. */
  lemma QuietMaintenance(l: Limits, before: Files, settled: Files, files: Files, sources: seq<State>, now: int)
    requires WellPlaced(before) && MaintainedTo(l, before, settled, files, sources, now)
    requires forall dir :: dir in sources ==> SettledIn(before, dir)
    requires forall s :: s in before && s.dir.Inflight? ==> !ClaimOver(before[s], now)
    ensures Recoveries(l, settled, now) == map[]
    ensures forall id: nat :: Find(settled, id) == Find(before, id)
    ensures forall id: nat :: Find(files, id) == Find(before, id)
  {
    forall id: nat ensures Find(settled, id) == Find(before, id) && id !in Recoveries(l, settled, now) {
      if Find(before, id).Some? {
        FindExact(before, Slot(Find(before, id).value.dir, id));
      }
      assert Find(settled, id) == Settled(sources, Find(before, id));
      RecoveriesAt(l, settled, now, id);
      FindExact(settled, Slot(Inflight, id));
    }
    assert Recoveries(l, settled, now) == map[];
    assert BuriedAges(map[]) == map[];
  }

  // ----- which records an operation loses -----

  /** Reconciling the dead letters saves every misplaced record; reconciling other directories neither
      saves nor misplaces one. */
  lemma ReconciledMisplaced(before: Files, settled: Files, sources: seq<State>)
    requires WellPlaced(before) && WellPlaced(settled) && Reconciled(before, settled, sources)
    ensures MisplacedIds(settled) == if DeadLetter in sources then {} else MisplacedIds(before)
  {
    MisplacedFind(before);
    MisplacedFind(settled);
    forall id: nat
      ensures id in MisplacedIds(settled) <==> DeadLetter !in sources && id in MisplacedIds(before)
    {
      assert Find(settled, id) == Settled(sources, Find(before, id));
    }
  }

  /** An operation that buries these jobs once `settled` is reached loses exactly these records. */
  ghost predicate LosesExactly(l: Limits, before: Files, settled: Files, changes: map<nat, Job>,
                               lostBefore: multiset<nat>, lostAfter: multiset<nat>) {
    lostAfter == lostBefore + multiset(MisplacedIds(before) * Dropped(l, settled, changes))
  }

  lemma AccountedMeansDropped(l: Limits, before: Files, files: Files, changes: map<nat, Job>,
                              lostBefore: multiset<nat>, lostAfter: multiset<nat>)
    requires WellPlaced(before) && WellPlaced(files) && ChangedBy(l, before, files, changes)
             && FromElsewhere(before, changes)
    requires lostAfter + multiset(MisplacedIds(files)) == lostBefore + multiset(MisplacedIds(before))
    ensures LosesExactly(l, before, before, changes, lostBefore, lostAfter)
  {
    MisplacedFind(before);
    MisplacedFind(files);
    var was, left, gone := MisplacedIds(before), MisplacedIds(files),
      MisplacedIds(before) * Dropped(l, before, changes);
    forall id: nat ensures id in was <==> id in left || id in gone
      ensures !(id in left && id in gone)
    {
      assert Find(files, id) ==
             if id in Dropped(l, before, changes) then None else After(Find(before, id), changes, id);
    }
    Balanced(was, left, gone, lostBefore, lostAfter);
  }

  lemma Balanced(was: set<nat>, left: set<nat>, gone: set<nat>, lostBefore: multiset<nat>, lostAfter: multiset<nat>)
    requires forall id: nat :: (id in was <==> id in left || id in gone) && !(id in left && id in gone)
    requires lostAfter + multiset(left) == lostBefore + multiset(was)
    ensures lostAfter == lostBefore + multiset(gone)
  {
    assert was == left + gone;
    assert multiset(was) == multiset(left) + multiset(gone);
    forall id: nat ensures lostAfter[id] == (lostBefore + multiset(gone))[id] {
      assert (lostAfter + multiset(left))[id] == (lostBefore + multiset(was))[id];
    }
  }

  /** An operation loses a record that is not a dead letter if and only if it buries a job and some
      misplaced record then has at least as many newer dead letters as the limit allows. */
  lemma LosesLiveIff(l: Limits, before: Files, settled: Files, changes: map<nat, Job>,
                     lostBefore: multiset<nat>, lostAfter: multiset<nat>)
    requires LosesExactly(l, before, settled, changes, lostBefore, lostAfter)
    ensures lostAfter != lostBefore
            <==>
            && BuriedAges(changes) != map[]
            && exists id: nat :: id in MisplacedIds(before) && id in DeadAges(settled, changes)
                                 && |NewerThan(DeadAges(settled, changes), id)| >= l.deadLetters
  {
    var lost := MisplacedIds(before) * Dropped(l, settled, changes);
    if lost == {} {
      assert lostAfter == lostBefore;
      forall id: nat | id in MisplacedIds(before) ensures id !in Dropped(l, settled, changes) {
        assert id !in lost;
      }
    } else {
      var id :| id in lost;
      assert multiset(lost)[id] == 1;
      assert lostAfter[id] == lostBefore[id] + 1;
    }
  }

  // ----- the operations -----

  datatype QueueOutcome = Queued(job: Job) | Requeued(job: Job) | Duplicate(job: Job)

  datatype ClaimOutcome = NotFound | NotOwned | Done(job: Job)

  datatype CompletionOutcome = Unmatched | Mismatch | AlreadyCompleted(job: Job) | Matched(job: Job)

  predicate DueFor(j: Job, provider: nat, now: int) {
    j.provider == provider && j.nextAttemptAt <= now
  }

  /** What the claim loop does with a due pending job. */
  function Offer(j: Job, token: nat, now: int): Event {
    if j.expiresAt <= now then Expired(now)
    else if !PackageIntact(j) then PackageRejected(now)
    else Claimed(token, now)
  }

  ghost predicate ClaimedInOrder(claimed: seq<Job>, changes: map<nat, Job>, tokens: seq<nat>) {
    && |claimed| <= |tokens|
    && (forall m :: 0 <= m < |claimed| ==>
          claimed[m].id in changes && changes[claimed[m].id] == claimed[m] && claimed[m].claimToken == Some(tokens[m]))
    && (forall m, n :: 0 <= m < n < |claimed| ==> claimed[m].id < claimed[n].id)
  }

  /** The claim pass over these names: every due job was handed out under one of the tokens, in order,
      or buried because it had expired or its package was damaged; no other job was touched. */
  ghost predicate ClaimPass(l: Limits, ready: Files, names: seq<nat>, changes: map<nat, Job>, claimed: seq<Job>,
                            provider: nat, tokens: seq<nat>, now: int) {
    && ClaimedInOrder(claimed, changes, tokens)
    && DueOnly(ready, names, changes, provider, now)
    && forall id: nat :: id in changes && Slot(Pending, id) in ready ==>
      IsOffer(l, ready[Slot(Pending, id)], changes[id], claimed, now)
  }

  ghost predicate DueOnly(ready: Files, names: seq<nat>, changes: map<nat, Job>, provider: nat, now: int) {
    forall id: nat ::
      id in changes <==> id in names && Slot(Pending, id) in ready && DueFor(ready[Slot(Pending, id)], provider, now)
  }

  ghost predicate IsOffer(l: Limits, was: Job, job: Job, claimed: seq<Job>, now: int) {
    && (exists token :: job == Changed(l, was, Offer(was, token, now)))
    && (job.state.Inflight? ==> job in claimed)
  }

  /** What a claim pass means for the jobs it reached: the provider's due ones are handed out under the tokens in
      order, or given up when they have expired. */
  ghost predicate PassMeans(l: Limits, ready: Files, seen: seq<nat>, changes: map<nat, Job>, claimed: seq<Job>,
                            provider: nat, tokens: seq<nat>, now: int)
    requires |claimed| <= |tokens|
  {
    && (forall m :: 0 <= m < |claimed| ==>
          var slot := Slot(Pending, claimed[m].id);
          && slot in ready && HandedOut(l, ready[slot], claimed[m], tokens[m], now)
          && ready[slot].provider == provider && ready[slot].nextAttemptAt <= now < ready[slot].expiresAt)
    && (forall id: nat :: id in seen && Slot(Pending, id) in ready ==>
          var was := ready[Slot(Pending, id)];
          was.provider == provider && was.nextAttemptAt <= now ==>
            && id in changes
            && if now < was.expiresAt then changes[id] in claimed else GivenUp(was, changes[id], JOB_EXPIRED, now))
  }

  lemma ClaimPassMeans(l: Limits, ready: Files, seen: seq<nat>, changes: map<nat, Job>, claimed: seq<Job>,
                       provider: nat, tokens: seq<nat>, now: int)
    requires ClaimPass(l, ready, seen, changes, claimed, provider, tokens, now)
    requires WellPlaced(ready) && SettledIn(ready, Pending) && (forall s :: s in ready ==> JobInv(l, ready[s]))
    ensures PassMeans(l, ready, seen, changes, claimed, provider, tokens, now)
    ensures forall id: nat :: id in changes ==> changes[id].id == id
  {
    forall id: nat | id in changes
      ensures Slot(Pending, id) in ready && changes[id].id == id
      ensures OfferMeans(l, ready[Slot(Pending, id)], changes[id], claimed, now)
    {
      OfferedMeans(l, ready[Slot(Pending, id)], changes[id], claimed, now);
    }
    forall m | 0 <= m < |claimed|
      ensures var slot := Slot(Pending, claimed[m].id);
              && slot in ready && HandedOut(l, ready[slot], claimed[m], tokens[m], now)
              && ready[slot].provider == provider && ready[slot].nextAttemptAt <= now < ready[slot].expiresAt
    {
      assert OfferMeans(l, ready[Slot(Pending, claimed[m].id)], changes[claimed[m].id], claimed, now);
    }
  }

  ghost predicate OfferMeans(l: Limits, was: Job, job: Job, claimed: seq<Job>, now: int) {
    if now < was.expiresAt then
      job in claimed && job.claimToken.Some? && HandedOut(l, was, job, job.claimToken.value, now)
    else
      GivenUp(was, job, JOB_EXPIRED, now)
  }

  lemma OfferedMeans(l: Limits, was: Job, job: Job, claimed: seq<Job>, now: int)
    requires IsOffer(l, was, job, claimed, now) && JobInv(l, was) && was.state.Pending? && was.nextAttemptAt <= now
    ensures OfferMeans(l, was, job, claimed, now) && job.id == was.id
  {
    var token :| job == Changed(l, was, Offer(was, token, now));
    ChangeMeans(l, was, Offer(was, token, now));
  }

  lemma ClaimedOneMore(changes: map<nat, Job>, claimed: seq<Job>, tokens: seq<nat>, names: seq<nat>, job: Job)
    requires ClaimedInOrder(claimed, changes, tokens) && |claimed| < |tokens|
             && job.claimToken == Some(tokens[|claimed|])
    requires (forall id :: id in changes ==> id in names) && (forall id :: id in names ==> id < job.id)
    ensures ClaimedInOrder(claimed + [job], changes[job.id := job], tokens)
  {
  }

  lemma DueOneMore(ready: Files, names: seq<nat>, next: nat, changes: map<nat, Job>, provider: nat, now: int, job: Job)
    requires DueOnly(ready, names, changes, provider, now)
    requires Slot(Pending, next) in ready && DueFor(ready[Slot(Pending, next)], provider, now)
    ensures DueOnly(ready, names + [next], changes[next := job], provider, now)
  {
    assert forall id :: id in names + [next] <==> id in names || id == next;
  }

  lemma OfferStands(l: Limits, was: Job, job: Job, claimed: seq<Job>, more: seq<Job>, now: int)
    requires IsOffer(l, was, job, claimed, now)
    ensures IsOffer(l, was, job, claimed + more, now)
  {
  }

  lemma ClaimPassStep(l: Limits, ready: Files, names: seq<nat>, next: nat, changes: map<nat, Job>, claimed: seq<Job>,
                      claimed': seq<Job>, provider: nat, tokens: seq<nat>, now: int, token: nat, job: Job)
    requires ClaimPass(l, ready, names, changes, claimed, provider, tokens, now)
    requires Slot(Pending, next) in ready && (forall id :: id in names ==> id < next)
    requires DueFor(ready[Slot(Pending, next)], provider, now)
    requires |claimed| < |tokens| && token == tokens[|claimed|]
    requires job == Changed(l, ready[Slot(Pending, next)], Offer(ready[Slot(Pending, next)], token, now))
             && job.id == next
    requires claimed' == claimed + if job.state.Inflight? then [job] else []
    ensures ClaimPass(l, ready, names + [next], changes[next := job], claimed', provider, tokens, now)
  {
    if job.state.Inflight? {
      ClaimedOneMore(changes, claimed, tokens, names, job);
      assert job == claimed'[|claimed|];
    }
    DueOneMore(ready, names, next, changes, provider, now, job);
    forall id: nat | id in changes && id != next && Slot(Pending, id) in ready
      ensures IsOffer(l, ready[Slot(Pending, id)], changes[id], claimed', now)
    {
      OfferStands(l, ready[Slot(Pending, id)], changes[id], claimed, if job.state.Inflight? then [job] else [], now);
    }
  }

  lemma ClaimPassSkip(l: Limits, ready: Files, names: seq<nat>, next: nat, changes: map<nat, Job>, claimed: seq<Job>,
                      provider: nat, tokens: seq<nat>, now: int)
    requires ClaimPass(l, ready, names, changes, claimed, provider, tokens, now)
    requires next !in names && Slot(Pending, next) in ready && !DueFor(ready[Slot(Pending, next)], provider, now)
    ensures ClaimPass(l, ready, names + [next], changes, claimed, provider, tokens, now)
  {
    assert forall id :: id in names + [next] <==> id in names || id == next;
  }

  /** From `first` on, the tokens are fresh and distinct. */
  ghost predicate Unissued(tokens: seq<nat>, first: nat, issued: set<nat>) {
    && (forall m, n :: first <= m < n < |tokens| ==> tokens[m] != tokens[n])
    && (forall m :: first <= m < |tokens| ==> tokens[m] !in issued)
  }

  /** The claim loop after `i` names. */
  ghost predicate Claiming(l: Limits, ready: Files, files: Files, names: seq<nat>, i: nat, changes: map<nat, Job>,
                           claimed: seq<Job>, provider: nat, tokens: seq<nat>, now: int) {
    && WellPlaced(ready) && SettledIn(ready, Pending) && Lists(names, IdsIn(ready, Pending)) && i <= |names|
    && ChangedBy(l, ready, files, changes)
    && ClaimPass(l, ready, names[..i], changes, claimed, provider, tokens, now)
    && LastFilled(names[..i], claimed, tokens)
  }

  /** When the tokens ran out, the last name was handed the last token. */
  ghost predicate LastFilled(seen: seq<nat>, claimed: seq<Job>, tokens: seq<nat>) {
    |claimed| > 0 && |claimed| == |tokens| ==> |seen| > 0 && claimed[|claimed| - 1].id == seen[|seen| - 1]
  }

  lemma ClaimingStarts(l: Limits, ready: Files, names: seq<nat>, provider: nat, tokens: seq<nat>, now: int)
    requires WellPlaced(ready) && SettledIn(ready, Pending) && Lists(names, IdsIn(ready, Pending))
    ensures Claiming(l, ready, ready, names, 0, map[], [], provider, tokens, now)
  {
    NothingChanged(l, ready);
  }

  lemma ClaimingNext(l: Limits, ready: Files, files: Files, names: seq<nat>, i: nat, changes: map<nat, Job>,
                     claimed: seq<Job>, provider: nat, tokens: seq<nat>, now: int)
    requires Claiming(l, ready, files, names, i, changes, claimed, provider, tokens, now)
    requires WellPlaced(files) && i < |names| && |claimed| < |tokens|
    ensures var slot := Slot(Pending, names[i]);
            && slot in ready && slot in files && files[slot] == ready[slot] && files[slot].state.Pending?
            && (!DueFor(files[slot], provider, now) ==>
                Claiming(l, ready, files, names, i + 1, changes, claimed, provider, tokens, now))
  {
    var slot := Slot(Pending, names[i]);
    IdsInFind(ready, Pending);
    assert names[i] in names && names[i] !in names[..i];
    StillInPlace(l, ready, files, changes, slot);
    assert names[..i + 1] == names[..i] + [names[i]];
    if !DueFor(files[slot], provider, now) {
      ClaimPassSkip(l, ready, names[..i], names[i], changes, claimed, provider, tokens, now);
    }
  }

  lemma ClaimingStep(l: Limits, ready: Files, was: Files, files: Files, names: seq<nat>, i: nat, changes: map<nat, Job>,
                     claimed: seq<Job>, claimed': seq<Job>, provider: nat, tokens: seq<nat>, now: int, token: nat,
                       job: Job)
    requires Claiming(l, ready, was, names, i, changes, claimed, provider, tokens, now)
    requires i < |names| && |claimed| < |tokens| && token == tokens[|claimed|]
    requires Slot(Pending, names[i]) in ready && DueFor(ready[Slot(Pending, names[i])], provider, now)
    requires WellPlaced(was) && Slot(Pending, names[i]) in was
    requires job == Changed(l, ready[Slot(Pending, names[i])], Offer(ready[Slot(Pending, names[i])], token, now))
             && job.id == names[i]
    requires ChangedBy(l, was, files, map[job.id := job])
    requires claimed' == claimed + if job.state.Inflight? then [job] else []
    ensures Claiming(l, ready, files, names, i + 1, changes[job.id := job], claimed', provider, tokens, now)
  {
    assert names[i] !in names[..i];
    assert names[..i + 1] == names[..i] + [names[i]];
    InElsewhere(was, Slot(Pending, names[i]));
    ChangeOneMore(l, ready, was, files, changes, job);
    ClaimPassStep(l, ready, names[..i], names[i], changes, claimed, claimed', provider, tokens, now, token, job);
  }

  /** The pass stopped at the job that filled the limit, or saw every pending job. */
  ghost predicate SeenEnough(ready: Files, seen: seq<nat>, claimed: seq<Job>, limit: nat) {
    forall id: nat :: Slot(Pending, id) in ready ==>
      (id in seen <==> |claimed| < limit || (|claimed| > 0 && id <= claimed[|claimed| - 1].id))
  }

  lemma ClaimingEnds(l: Limits, ready: Files, files: Files, names: seq<nat>, i: nat, changes: map<nat, Job>,
                     claimed: seq<Job>, provider: nat, tokens: seq<nat>, now: int)
    requires Claiming(l, ready, files, names, i, changes, claimed, provider, tokens, now)
    requires |tokens| > 0 && (i == |names| || |claimed| == |tokens|)
    ensures SeenEnough(ready, names[..i], claimed, |tokens|)
  {
    IdsInFind(ready, Pending);
    forall id: nat | Slot(Pending, id) in ready
      ensures id in names[..i] <==> |claimed| < |tokens| || (|claimed| > 0 && id <= claimed[|claimed| - 1].id)
    {
      SeenUpTo(names, i, id);
      LastSeen(names, i, claimed, tokens);
    }
  }

  lemma LastSeen(names: seq<nat>, i: nat, claimed: seq<Job>, tokens: seq<nat>)
    requires i <= |names| && LastFilled(names[..i], claimed, tokens)
    ensures |claimed| > 0 && |claimed| == |tokens| ==> i > 0 && claimed[|claimed| - 1].id == names[i - 1]
  {
  }

  lemma SeenUpTo(names: seq<nat>, i: nat, id: nat)
    requires Ascending(names) && i <= |names| && id in names
    ensures i == |names| ==> id in names[..i]
    ensures i > 0 ==> (id in names[..i] <==> id <= names[i - 1])
  {
    var k :| 0 <= k < |names| && names[k] == id;
    if k < i {
      assert names[..i][k] == id;
    }
  }

  const QUEUE_STATES: seq<State> := [Pending, Inflight, Delivered, DeadLetter]
  const CLAIM_STATES: seq<State> := [Pending, Inflight]

  lemma WhichStates()
    ensures Pending in CLAIM_STATES && Inflight in CLAIM_STATES && DeadLetter !in CLAIM_STATES
    ensures Inflight in QUEUE_STATES && DeadLetter in QUEUE_STATES
  {
    assert CLAIM_STATES[0] == Pending && CLAIM_STATES[1] == Inflight;
    assert QUEUE_STATES[1] == Inflight && QUEUE_STATES[3] == DeadLetter;
  }

  /** The job's claim as `readOwnedClaim` sees it, judged by the files before maintenance: maintenance
      never takes back a claim that is still running. */
  ghost predicate OwnedBefore(l: Limits, before: Files, id: nat, event: Event)
    requires event.Acknowledged? || event.Failed?
  {
    var place := Settled(CLAIM_STATES, Find(before, id));
    place.Some? && place.value.dir.Inflight? && OwnsClaim(place.value.job, event.provider, event.token, event.now)
  }

  /** The job is under a claim that is still running. */
  ghost predicate RunningBefore(before: Files, id: nat, now: int) {
    var place := Settled(CLAIM_STATES, Find(before, id));
    place.Some? && place.value.dir.Inflight? && !ClaimOver(place.value.job, now)
  }

  /** How acknowledging or failing ends, from `ready` on. */
  ghost predicate ClaimEnds(l: Limits, before: Files, ready: Files, files: Files, id: nat, event: Event,
                            outcome: ClaimOutcome)
    requires event.Acknowledged? || event.Failed?
  {
    if OwnedBefore(l, before, id, event) then
      && outcome == Done(Changed(l, Find(before, id).value.job, event))
      && ChangedBy(l, ready, files, map[id := outcome.job])
    else
      && outcome == (if RunningBefore(before, id, event.now) then NotOwned else NotFound)
      && files == ready
  }

  /** How an owned claim ends: delivered on acknowledgement; on failure due again exactly when that was retryable
      and attempts are left, and given up otherwise. */
  ghost predicate EndMeans(l: Limits, was: Job, event: Event, job: Job)
    requires event.Acknowledged? || event.Failed?
  {
    match event
    case Acknowledged(_, _, now) => Received(was, job, now)
    case Failed(_, _, retryable, reason, now) =>
      if retryable && was.attempts < l.maxAttempts then DueAgain(was, job, Retry(reason), now)
      else GivenUp(was, job, reason, now)
  }

  /** The job is out with this provider, under this token and for some time yet; its file may not have been moved to
      the inflight directory. */
  ghost predicate ClaimHeld(place: Option<Place>, provider: nat, token: nat, now: int) {
    && place.Some? && (place.value.dir.Inflight? || place.value.dir.Pending?) && place.value.job.state.Inflight?
    && place.value.job.provider == provider && place.value.job.claimToken == Some(token)
    && place.value.job.claimExpiresAt.Some? && now < place.value.job.claimExpiresAt.value
  }

  lemma HeldIsOwned(l: Limits, before: Files, id: nat, event: Event)
    requires event.Acknowledged? || event.Failed?
    ensures OwnedBefore(l, before, id, event) <==>
            ClaimHeld(Find(before, id), event.provider, event.token, event.now)
  {
    WhichStates();
    assert CLAIM_STATES == [Pending, Inflight];
  }

  lemma ClaimEndMeans(l: Limits, before: Files, ready: Files, files: Files, id: nat, event: Event,
                      outcome: ClaimOutcome)
    requires event.Acknowledged? || event.Failed?
    requires WellPlaced(before) && WellPlaced(ready) && (forall s :: s in before ==> JobInv(l, before[s]))
    requires ClaimEnds(l, before, ready, files, id, event, outcome) && OwnedBefore(l, before, id, event)
    ensures Find(before, id).Some? && outcome.Done?
    ensures EndMeans(l, Find(before, id).value.job, event, outcome.job) && Went(files, outcome.job)
  {
    var was := Find(before, id).value;
    FindExact(before, Slot(was.dir, id));
    ChangeMeans(l, was.job, event);
    ChangedWent(l, ready, files, map[id := outcome.job], id);
  }

  /** How `readOwnedClaim` judges the claim, and what comes of it. */
  function ReadyOutcome(l: Limits, ready: Files, id: nat, event: Event): ClaimOutcome
    requires event.Acknowledged? || event.Failed?
  {
    var slot := Slot(Inflight, id);
    if slot !in ready then NotFound
    else if !OwnsClaim(ready[slot], event.provider, event.token, event.now) then NotOwned
    else Done(Changed(l, ready[slot], event))
  }

  /** What ending a claim changes. */
  function Ended(id: nat, outcome: ClaimOutcome): map<nat, Job> {
    if outcome.Done? then map[id := outcome.job] else map[]
  }

  lemma InflightMaintained(l: Limits, before: Files, settled: Files, ready: Files, now: int, id: nat)
    requires MaintainedTo(l, before, settled, ready, CLAIM_STATES, now)
    ensures Slot(Inflight, id) in ready <==> RunningBefore(before, id, now)
    ensures Slot(Inflight, id) in ready ==> ready[Slot(Inflight, id)] == Find(before, id).value.job
  {
    FindExact(ready, Slot(Inflight, id));
    FindExact(settled, Slot(Inflight, id));
    RecoveriesAt(l, settled, now, id);
    DeadAgesAt(settled, Recoveries(l, settled, now), id);
    assert Find(settled, id) == Settled(CLAIM_STATES, Find(before, id));
  }

  lemma ClaimEnded(l: Limits, before: Files, settled: Files, ready: Files, files: Files, id: nat, event: Event,
                   outcome: ClaimOutcome)
    requires event.Acknowledged? || event.Failed?
    requires MaintainedTo(l, before, settled, ready, CLAIM_STATES, event.now)
    requires outcome == ReadyOutcome(l, ready, id, event) && ChangedBy(l, ready, files, Ended(id, outcome))
    requires !outcome.Done? ==> files == ready
    ensures ClaimEnds(l, before, ready, files, id, event, outcome)
  {
    InflightMaintained(l, before, settled, ready, event.now, id);
  }

  /** The jobs a claim pass changes were pending. */
  lemma ClaimPassElsewhere(l: Limits, ready: Files, seen: seq<nat>, changes: map<nat, Job>, claimed: seq<Job>,
                           provider: nat, tokens: seq<nat>, now: int)
    requires WellPlaced(ready) && ClaimPass(l, ready, seen, changes, claimed, provider, tokens, now)
    ensures FromElsewhere(ready, changes)
  {
    forall id: nat | id in changes ensures Find(ready, id).Some? && !Find(ready, id).value.dir.DeadLetter? {
      FindExact(ready, Slot(Pending, id));
    }
  }

  /** Everything a claim, acknowledgement or failure changes once its directories are reconciled. */
  function AllChanges(l: Limits, settled: Files, changes: map<nat, Job>, now: int): map<nat, Job> {
    Recoveries(l, settled, now) + changes
  }

  lemma MaintainedThenChanged(l: Limits, before: Files, settled: Files, ready: Files, files: Files, sources: seq<State>,
                              now: int, changes: map<nat, Job>, lostBefore: multiset<nat>, lostAfter: multiset<nat>)
    requires WellPlaced(before) && MaintainedTo(l, before, settled, ready, sources, now) && DeadLetter !in sources
    requires WellPlaced(files) && ChangedBy(l, ready, files, changes) && FromElsewhere(ready, changes)
    requires lostAfter + multiset(MisplacedIds(files)) == lostBefore + multiset(MisplacedIds(before))
    ensures ChangedBy(l, settled, files, AllChanges(l, settled, changes, now))
    ensures LosesExactly(l, before, settled, AllChanges(l, settled, changes, now), lostBefore, lostAfter)
  {
    var recovered := Recoveries(l, settled, now);
    ChangedTwice(l, settled, ready, files, recovered, changes);
    AllFromElsewhere(l, settled, ready, now, changes);
    ReconciledMisplaced(before, settled, sources);
    AccountedMeansDropped(l, settled, files, recovered + changes, lostBefore, lostAfter);
  }

  lemma AllFromElsewhere(l: Limits, settled: Files, ready: Files, now: int, changes: map<nat, Job>)
    requires WellPlaced(settled) && ChangedBy(l, settled, ready, Recoveries(l, settled, now))
             && FromElsewhere(ready, changes)
    ensures FromElsewhere(settled, AllChanges(l, settled, changes, now))
  {
    forall id: nat | id in AllChanges(l, settled, changes, now)
      ensures Find(settled, id).Some? && !Find(settled, id).value.dir.DeadLetter?
    {
      RecoveriesAt(l, settled, now, id);
      FindExact(settled, Slot(Inflight, id));
      assert id in changes ==> Find(ready, id).Some? && !Find(ready, id).value.dir.DeadLetter?;
    }
  }

  /** What an attestation does with the job it points at. */
  function Completion(l: Limits, place: Option<Place>, provider: nat, content: nat, attestation: nat,
                      now: int): CompletionOutcome
  {
    if place.None? then Unmatched
    else if place.value.job.provider != provider || place.value.job.content != content then Mismatch
    else if place.value.job.state.Completed? then AlreadyCompleted(place.value.job)
    else Matched(Changed(l, place.value.job, Attested(attestation, now)))
  }

  /** Every record lies in the directory of its state. */
  ghost predicate InOrder(files: Files) {
    forall s :: s in files ==> files[s].state == s.dir
  }

  lemma AllSettled(ready: Files)
    requires WellPlaced(ready)
    requires forall dir :: dir in QUEUE_STATES ==> SettledIn(ready, dir)
    ensures InOrder(ready)
  {
    forall s | s in ready ensures ready[s].state == s.dir {
      assert s.dir.Completed? || s.dir in QUEUE_STATES;
    }
  }

  // ----- the janitor -----

  function AfterExpiry(l: Limits, dir: State, place: Option<Place>, now: int): Option<Place> {
    if place.Some? && place.value.dir == dir && place.value.job.expiresAt <= now then
      Some(Place(DeadLetter, Changed(l, place.value.job, Expired(now))))
    else
      place
  }

  /** What the janitor's expiry makes of a directory: every overdue job is given up, the reason telling a job nobody
      claimed from one nobody attested. */
  ghost predicate ExpiryMeans(before: Files, files: Files, dir: State, now: int) {
    forall id: nat ::
      var slot := Slot(dir, id);
      slot in before ==>
        && Find(files, id).Some?
        && if before[slot].expiresAt <= now then
             && Find(files, id).value.dir.DeadLetter?
             && GivenUp(before[slot], Find(files, id).value.job,
                        if dir.Pending? then JOB_EXPIRED else ATTESTATION_TIMEOUT, now)
           else Find(files, id) == Some(Place(dir, before[slot]))
  }

  lemma ExpiredMeans(l: Limits, before: Files, files: Files, dir: State, now: int)
    requires WellPlaced(before) && SettledIn(before, dir) && (dir.Pending? || dir.Delivered?)
    requires forall s :: s in before ==> JobInv(l, before[s])
    requires forall id: nat :: Find(files, id) == AfterExpiry(l, dir, Find(before, id), now)
    ensures ExpiryMeans(before, files, dir, now)
  {
    forall id: nat | Slot(dir, id) in before
      ensures Find(files, id) == AfterExpiry(l, dir, Some(Place(dir, before[Slot(dir, id)])), now)
      ensures before[Slot(dir, id)].expiresAt <= now ==>
                GivenUp(before[Slot(dir, id)], Changed(l, before[Slot(dir, id)], Expired(now)),
                        if dir.Pending? then JOB_EXPIRED else ATTESTATION_TIMEOUT, now)
    {
      FindExact(before, Slot(dir, id));
      assert Find(files, id) == AfterExpiry(l, dir, Find(before, id), now);
      if before[Slot(dir, id)].expiresAt <= now {
        ChangeMeans(l, before[Slot(dir, id)], Expired(now));
      }
    }
  }

  ghost predicate ExpiredUpTo(l: Limits, before: Files, files: Files, dir: State, names: seq<nat>, i: nat, now: int) {
    && WellPlaced(before) && WellPlaced(files) && SettledIn(before, dir)
    && Lists(names, IdsIn(before, dir)) && i <= |names|
    && forall id ::
         Find(files, id) == if id in names[..i] then AfterExpiry(l, dir, Find(before, id), now) else Find(before, id)
  }

  lemma ExpireNext(l: Limits, before: Files, files: Files, dir: State, names: seq<nat>, i: nat, now: int)
    requires ExpiredUpTo(l, before, files, dir, names, i, now) && i < |names|
    ensures var slot := Slot(dir, names[i]);
            slot in before && slot in files && files[slot] == before[slot] && files[slot].state == dir
  {
    IdsInFind(before, dir);
    assert names[i] in names && names[i] !in names[..i];
    FindExact(before, Slot(dir, names[i]));
    FindExact(files, Slot(dir, names[i]));
  }

  lemma ExpireStep(l: Limits, before: Files, was: Files, files: Files, dir: State, names: seq<nat>, i: nat, now: int)
    requires ExpiredUpTo(l, before, was, dir, names, i, now) && i < |names| && WellPlaced(files)
    requires dir.Pending? || dir.Delivered?
    requires Slot(dir, names[i]) in before
    requires if before[Slot(dir, names[i])].expiresAt > now then files == was
             else forall id :: Find(files, id) ==
                    if id == names[i] then Some(Place(DeadLetter, Changed(l, before[Slot(dir, id)], Expired(now))))
                      else Find(was, id)
    ensures ExpiredUpTo(l, before, files, dir, names, i + 1, now)
  {
    FindExact(before, Slot(dir, names[i]));
    assert names[..i + 1] == names[..i] + [names[i]];
    assert names[i] !in names[..i];
  }

  lemma DeliveredStaySettled(l: Limits, before: Files, files: Files, now: int)
    requires WellPlaced(before) && WellPlaced(files) && SettledIn(before, Delivered)
    requires forall id :: Find(files, id) == AfterExpiry(l, Pending, Find(before, id), now)
    ensures SettledIn(files, Delivered)
  {
    forall s | s in files && s.dir == Delivered ensures files[s].state == Delivered {
      FindExact(files, s);
      FindExact(before, s);
    }
  }

  function FirstNames(names: seq<nat>, limit: nat): seq<nat> {
    names[..Cut(names, limit)]
  }

  /** Where the janitor puts a job it does not drop. */
  function AfterJanitor(l: Limits, place: Option<Place>, now: int): Option<Place> {
    AfterExpiry(l, Delivered, AfterExpiry(l, Pending, Settled(ALL_STATES, place), now), now)
  }

  ghost predicate DeadAfterJanitor(l: Limits, before: Files, now: int, id: nat) {
    var place := AfterJanitor(l, Find(before, id), now);
    place.Some? && place.value.job.state.DeadLetter?
  }

  ghost predicate NoneOverdue(files: Files, now: int) {
    forall s :: s in files && (files[s].state.Pending? || files[s].state.Delivered?) ==> files[s].expiresAt > now
  }

  lemma AgedFind(l: Limits, before: Files, settled: Files, aged: Files, now: int)
    requires forall id :: Find(settled, id) == Settled(ALL_STATES, Find(before, id))
    requires forall id ::
               Find(aged, id) == AfterExpiry(l, Delivered, AfterExpiry(l, Pending, Find(settled, id), now), now)
    ensures forall id :: Find(aged, id) == AfterJanitor(l, Find(before, id), now)
  {
    forall id: nat ensures Find(aged, id) == AfterJanitor(l, Find(before, id), now) {
      assert Find(settled, id) == Settled(ALL_STATES, Find(before, id));
    }
  }

  lemma AgedInOrder(l: Limits, before: Files, aged: Files, now: int)
    requires WellPlaced(before) && WellPlaced(aged)
    requires forall id :: Find(aged, id) == AfterJanitor(l, Find(before, id), now)
    ensures forall id :: id in IdsIn(aged, DeadLetter) <==> DeadAfterJanitor(l, before, now, id)
    ensures InOrder(aged) && NoneOverdue(aged, now)
  {
    IdsInFind(aged, DeadLetter);
    forall id: nat ensures id in IdsIn(aged, DeadLetter) <==> DeadAfterJanitor(l, before, now, id) {
      var place := Find(before, id);
      assert Find(aged, id) == AfterJanitor(l, place, now);
      assert place.Some? ==> place.value.dir in ALL_STATES;
    }
    forall s | s in aged
      ensures aged[s].state == s.dir && (s.dir.Pending? || s.dir.Delivered? ==> aged[s].expiresAt > now)
    {
      FindExact(aged, s);
      var place := Find(before, s.id);
      assert Find(aged, s.id) == AfterJanitor(l, place, now);
      assert place.Some? ==> place.value.dir in ALL_STATES;
    }
  }

  lemma JanitorOutcome(l: Limits, before: Files, aged: Files, files: Files, names: seq<nat>, now: int)
    requires WellPlaced(aged) && WellPlaced(files) && InOrder(aged) && NoneOverdue(aged, now)
    requires Lists(names, IdsIn(aged, DeadLetter))
    requires forall id :: Find(files, id) == if id in FirstNames(names, l.deadLetters) then None else Find(aged, id)
    ensures InOrder(files) && NoneOverdue(files, now)
  {
    forall s | s in files ensures s in aged && files[s] == aged[s] {
      FindExact(files, s);
      FindExact(aged, s);
    }
  }

  ghost predicate SettledUpTo(before: Files, files: Files, dir: State, names: seq<nat>, i: nat)
    requires i <= |names|
  {
    && WellPlaced(before) && WellPlaced(files) && Lists(names, IdsIn(before, dir))
    && forall id :: Find(files, id) == if id in names[..i] then Settled([dir], Find(before, id)) else Find(before, id)
  }

  lemma NextSlot(before: Files, files: Files, dir: State, names: seq<nat>, i: nat)
    requires i < |names| && SettledUpTo(before, files, dir, names, i)
    ensures Slot(dir, names[i]) in before && Slot(dir, names[i]) in files
    ensures files[Slot(dir, names[i])] == before[Slot(dir, names[i])]
    ensures names[i] !in names[..i]
  {
    assert names[i] in names;
    IdsInFind(before, dir);
    FindExact(before, Slot(dir, names[i]));
    FindExact(files, Slot(dir, names[i]));
  }

  lemma SettleNext(before: Files, was: Files, files: Files, dir: State, names: seq<nat>, i: nat)
    requires i < |names| && SettledUpTo(before, was, dir, names, i) && WellPlaced(files)
    requires Slot(dir, names[i]) in before
    requires if before[Slot(dir, names[i])].state == dir then files == was
             else forall id :: Find(files, id) ==
                    if id == names[i] then Some(Place(before[Slot(dir, id)].state, before[Slot(dir, id)]))
                      else Find(was, id)
    ensures SettledUpTo(before, files, dir, names, i + 1)
  {
    FindExact(before, Slot(dir, names[i]));
    assert names[..i + 1] == names[..i] + [names[i]];
    assert names[i] !in names[..i];
  }

  lemma SettledAll(before: Files, files: Files, dir: State, names: seq<nat>)
    requires SettledUpTo(before, files, dir, names, |names|)
    ensures forall id :: Find(files, id) == Settled([dir], Find(before, id))
    ensures SettledIn(before, dir) <==>
            forall k :: 0 <= k < |names| ==> Slot(dir, names[k]) in before && before[Slot(dir, names[k])].state == dir
  {
    assert names[..|names|] == names;
    IdsInFind(before, dir);
    forall s | s in before && s.dir == dir ensures s.id in names {
      assert s == Slot(dir, s.id);
    }
    forall k | 0 <= k < |names| ensures Slot(dir, names[k]) in before {
      assert names[k] in names;
    }
  }

  lemma SettledAfter(sources: seq<State>, before: Files, files: Files)
    requires WellPlaced(before) && WellPlaced(files)
    requires forall id :: Find(files, id) == Settled(sources, Find(before, id))
    ensures forall dir :: dir in sources ==> SettledIn(files, dir)
  {
    forall dir, s | dir in sources && s in files && s.dir == dir ensures files[s].state == dir {
      FindExact(files, s);
      var was := Find(before, s.id);
      assert was.Some? && was.value.dir in sources;
    }
  }

  /** The first `i` rows are removed, and nothing else. */
  ghost predicate RowsGone(before: Files, files: Files, rows: seq<nat>, i: nat)
    requires i <= |rows|
  {
    forall id: nat :: Find(files, id) == if id in rows[..i] then None else Find(before, id)
  }

  lemma RowGone(before: Files, was: Files, files: Files, rows: seq<nat>, i: nat)
    requires i < |rows| && RowsGone(before, was, rows, i)
    requires forall id: nat :: Find(files, id) == if id == rows[i] then None else Find(was, id)
    ensures RowsGone(before, files, rows, i + 1)
  {
    assert rows[..i + 1] == rows[..i] + [rows[i]];
  }

  lemma RowStillThere(before: Files, files: Files, dir: State, rows: seq<nat>, i: nat)
    requires WellPlaced(before) && WellPlaced(files) && i < |rows| && Slot(dir, rows[i]) in before
    requires forall k, m :: 0 <= k < m < |rows| ==> rows[k] != rows[m]
    requires RowsGone(before, files, rows, i)
    ensures Slot(dir, rows[i]) in files
  {
    assert rows[i] !in rows[..i];
    FindExact(before, Slot(dir, rows[i]));
    FindExact(files, Slot(dir, rows[i]));
  }

  /** The directory was cut back to its limit, oldest jobs first. */
  ghost predicate PrunedTo(before: Files, files: Files, dir: State, limit: nat) {
    && (forall id :: Find(files, id) == if id in OverLimit(before, dir, limit) then None else Find(before, id))
    && |IdsIn(files, dir)| == if |IdsIn(before, dir)| > limit then limit else |IdsIn(before, dir)|
  }

  /** Burying one job and cutting back the directory. */
  lemma BuryOutcome(l: Limits, before: Files, moved: Files, files: Files, job: Job)
    requires WellPlaced(before) && WellPlaced(moved) && job.state.DeadLetter?
    requires forall id: nat :: Find(moved, id) == After(Find(before, id), map[job.id := job], id)
    requires PrunedTo(moved, files, DeadLetter, l.deadLetters)
    ensures ChangedBy(l, before, files, map[job.id := job])
  {
    BuryDrops(l, before, moved, map[job.id := job], job);
  }

  lemma BuryLosses(l: Limits, before: Files, files: Files, slot: Slot, job: Job, lostBefore: multiset<nat>,
                   lostAfter: multiset<nat>)
    requires WellPlaced(before) && WellPlaced(files) && slot in before && !slot.dir.DeadLetter?
    requires ChangedBy(l, before, files, map[slot.id := job])
    requires lostAfter + multiset(MisplacedIds(files)) == lostBefore + multiset(MisplacedIds(before))
    ensures LosesExactly(l, before, before, map[slot.id := job], lostBefore, lostAfter)
  {
    InElsewhere(before, slot);
    AccountedMeansDropped(l, before, files, map[slot.id := job], lostBefore, lostAfter);
  }

  lemma BuryDrops(l: Limits, before: Files, moved: Files, changes: map<nat, Job>, job: Job)
    requires WellPlaced(before) && WellPlaced(moved) && job.state.DeadLetter? && changes == map[job.id := job]
    requires forall id: nat :: Find(moved, id) == After(Find(before, id), changes, id)
    ensures OverLimit(moved, DeadLetter, l.deadLetters) == Dropped(l, before, changes)
  {
    AgesAfter(before, moved, changes, {});
    assert DeadAges(before, changes) - {} == DeadAges(before, changes);
    assert job.id in BuriedAges(changes);
  }

  /** A move to another directory leaves the dead letters alone. */
  lemma MoveOutcome(l: Limits, before: Files, files: Files, job: Job)
    requires !job.state.DeadLetter?
    requires forall id: nat :: Find(files, id) == After(Find(before, id), map[job.id := job], id)
    ensures ChangedBy(l, before, files, map[job.id := job])
  {
    assert BuriedAges(map[job.id := job]) == map[];
  }

  lemma PrunedAges(before: Files, files: Files, dir: State, ages: map<nat, int>, rows: seq<nat>, limit: nat)
    requires WellPlaced(before) && WellPlaced(files) && ages.Keys == IdsIn(before, dir)
    requires OldestFirst(ages, rows) && forall id :: id in rows <==> id in ages
    requires forall id :: Find(files, id) == if id in rows[..Cut(rows, limit)] then None else Find(before, id)
    ensures forall id :: Find(files, id) == if id in Excess(ages, limit) then None else Find(before, id)
    ensures |IdsIn(files, dir)| == if |IdsIn(before, dir)| > limit then limit else |IdsIn(before, dir)|
  {
    ExcessRows(ages, rows, limit);
    ExcessSize(ages, rows, limit);
    KeptIds(before, files, dir, Excess(ages, limit));
  }

  lemma PrunedRows(before: Files, files: Files, dir: State, rows: seq<nat>, limit: nat)
    requires WellPlaced(before) && WellPlaced(files)
    requires OldestFirst(AgesIn(before, dir), rows) && forall id :: id in rows <==> id in AgesIn(before, dir)
    requires forall id :: Find(files, id) == if id in rows[..Cut(rows, limit)] then None else Find(before, id)
    ensures PrunedTo(before, files, dir, limit)
  {
    AgesInFiles(before, dir);
    PrunedAges(before, files, dir, AgesIn(before, dir), rows, limit);
  }

  lemma KeptIds(before: Files, files: Files, dir: State, gone: set<nat>)
    requires WellPlaced(before) && WellPlaced(files)
    requires forall id :: Find(files, id) == if id in gone then None else Find(before, id)
    ensures IdsIn(files, dir) == IdsIn(before, dir) - gone
  {
    IdsInFind(before, dir);
    IdsInFind(files, dir);
  }

  ghost predicate RemovedExactly(before: Files, files: Files, gone: set<nat>) {
    forall id: nat :: Find(files, id) == if id in gone then None else Find(before, id)
  }

  lemma RemovedSame(before: Files, files: Files, gone: set<nat>, other: set<nat>)
    requires RemovedExactly(before, files, gone)
    requires forall id: nat :: id in gone || id in other ==> Find(before, id).Some?
    ensures RemovedExactly(before, files, other) <==> gone == other
  {
    if RemovedExactly(before, files, other) {
      forall id: nat ensures id in gone <==> id in other {
        assert Find(files, id) == if id in gone then None else Find(before, id);
        assert Find(files, id) == if id in other then None else Find(before, id);
      }
    }
  }

  lemma KeptCount(before: Files, files: Files, dir: State, gone: set<nat>)
    requires WellPlaced(before) && WellPlaced(files) && RemovedExactly(before, files, gone)
    ensures |IdsIn(files, dir)| == |IdsIn(before, dir) - gone|
  {
    KeptIds(before, files, dir, gone);
  }

  lemma KeptSize(files: Files, dir: State, limit: nat)
    ensures |IdsIn(files, dir) - OverLimit(files, dir, limit)| ==
            if |IdsIn(files, dir)| > limit then limit else |IdsIn(files, dir)|
  {
    AgesInFiles(files, dir);
    CutSize(AgesIn(files, dir), limit);
  }

  lemma PrunedToIff(before: Files, files: Files, dir: State, limit: nat)
    requires WellPlaced(before) && WellPlaced(files)
    ensures PrunedTo(before, files, dir, limit) <==> RemovedExactly(before, files, OverLimit(before, dir, limit))
  {
    var over := OverLimit(before, dir, limit);
    KeptSize(before, dir, limit);
    if RemovedExactly(before, files, over) {
      KeptCount(before, files, dir, over);
    }
  }

  lemma NamesFound(before: Files, names: seq<nat>, limit: nat, id: nat)
    requires WellPlaced(before) && Lists(names, IdsIn(before, DeadLetter))
    requires id in Items(FirstNames(names, limit)) || id in OverLimit(before, DeadLetter, limit)
    ensures Find(before, id).Some?
  {
    IdsInFind(before, DeadLetter);
    AgesInAt(before, id);
    if id in FirstNames(names, limit) {
      assert id in names;
    }
  }

  /** The janitor drops dead letters by file name. That is what pruning by age would do if and only if no
      dropped job died after a kept one. */
  lemma NamePruningIff(before: Files, files: Files, names: seq<nat>, limit: nat)
    requires WellPlaced(before) && WellPlaced(files) && Lists(names, IdsIn(before, DeadLetter))
    requires RemovedExactly(before, files, Items(FirstNames(names, limit)))
    ensures PrunedTo(before, files, DeadLetter, limit) <==> FirstNamesOldest(AgesIn(before, DeadLetter), names, limit)
  {
    var ages, first, over := AgesIn(before, DeadLetter), Items(FirstNames(names, limit)),
      OverLimit(before, DeadLetter, limit);
    PrunedToIff(before, files, DeadLetter, limit);
    forall id: nat | id in first || id in over ensures Find(before, id).Some? {
      NamesFound(before, names, limit, id);
    }
    RemovedSame(before, files, first, over);
    AgesInFiles(before, DeadLetter);
    NamesAreOldestIff(ages, names, limit);
  }
}
