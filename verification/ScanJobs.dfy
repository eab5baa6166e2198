/**
 Scanner delivery jobs, src/evidence/externalScanJobOutbox.js: the job record, the changes a record
 goes through, and the single-file disk operations those changes are made of.

 A job is one file. A state change first rewrites the file where it lies and then renames it into the
 directory of its new state, so a crash can leave a record in the directory of its previous state.
 A log of disk operations is legal when each was allowed where it happened; every prefix of a legal
 log is legal, so what holds after every legal log holds wherever a crash strikes.
 */
module ScanJobs {
  import opened Prelude

  datatype State = Pending | Inflight | Delivered | Completed | DeadLetter

  /** The package sealed for one provider; only that provider's key opens it. */
  datatype Package = Package(job: nat, provider: nat, content: nat)

  datatype Digest = Sha256(preimage: Package)

  datatype Result = NoResult | Acknowledgement | Retry(reason: nat) | ClaimRecovered | Dead(reason: nat)
    | Verdict(attestation: nat)

  const JOB_EXPIRED: nat := 1
  const SEALED_PACKAGE_INVALID: nat := 2
  const CLAIM_EXPIRED: nat := 3
  const ATTESTATION_TIMEOUT: nat := 4

  datatype Job = Job(
    id: nat, provider: nat, content: nat, state: State,
    createdAt: int, updatedAt: int, expiresAt: int,
    attempts: nat, nextAttemptAt: int,
    claimToken: Option<nat>, claimedAt: Option<int>, claimExpiresAt: Option<int>,
    deliveredAt: Option<int>, completedAt: Option<int>, deadLetteredAt: Option<int>,
    result: Result, packageSha256: Digest, package: Option<Package>)

  datatype Limits = Limits(ttlMs: nat, leaseMs: nat, maxAttempts: nat, completed: nat, deadLetters: nat)

  ghost predicate ValidLimits(l: Limits) {
    l.ttlMs >= 60_000 && l.leaseMs >= 1_000 && l.maxAttempts >= 1 && l.completed >= 100 && l.deadLetters >= 1
  }

  function NewJob(l: Limits, id: nat, provider: nat, content: nat, now: int): Job {
    var sealed := Package(id, provider, content);
    Job(id, provider, content, Pending, now, now, now + l.ttlMs, 0, now, None, None, None, None, None, None,
        NoResult, Sha256(sealed), Some(sealed))
  }

  // ----- changes to one record -----

  datatype Event =
    | Claimed(token: nat, now: int)
    | Acknowledged(provider: nat, token: nat, now: int)
    | Failed(provider: nat, token: nat, retryable: bool, reason: nat, now: int)
    | ClaimLapsed(now: int)
    | Expired(now: int)
    | PackageRejected(now: int)
    | Attested(attestation: nat, now: int)

  predicate PackageIntact(j: Job) {
    j.package.Some? && Sha256(j.package.value) == j.packageSha256
  }

  /** The claim is unexpired and was given to this provider under this token. */
  predicate OwnsClaim(j: Job, provider: nat, token: nat, now: int) {
    && j.state.Inflight? && j.provider == provider && j.claimToken == Some(token)
    && j.claimExpiresAt.Some? && j.claimExpiresAt.value > now
  }

  predicate ClaimOver(j: Job, now: int) {
    j.claimExpiresAt.None? || j.claimExpiresAt.value <= now
  }

  predicate Allowed(j: Job, e: Event) {
    match e
    case Claimed(_, now) => j.state.Pending? && j.nextAttemptAt <= now < j.expiresAt && PackageIntact(j)
    case Acknowledged(provider, token, now) => OwnsClaim(j, provider, token, now)
    case Failed(provider, token, _, _, now) => OwnsClaim(j, provider, token, now)
    case ClaimLapsed(now) => j.state.Inflight? && ClaimOver(j, now)
    case Expired(now) => (j.state.Pending? || j.state.Delivered?) && j.expiresAt <= now
    case PackageRejected(_) => j.state.Pending? && !PackageIntact(j)
    case Attested(_, _) => !j.state.Completed?
  }

  function Unclaimed(j: Job): Job {
    j.(claimToken := None, claimedAt := None, claimExpiresAt := None)
  }

  function Requeued(j: Job, result: Result, now: int): Job {
    Unclaimed(j).(state := Pending, updatedAt := now, nextAttemptAt := now, result := result)
  }

  function Buried(j: Job, reason: nat, now: int): Job {
    Unclaimed(j).(state := DeadLetter, updatedAt := now, deadLetteredAt := Some(now), package := None,
                  result := Dead(reason))
  }

  function Changed(l: Limits, j: Job, e: Event): Job {
    match e
    case Claimed(token, now) =>
      j.(state := Inflight, updatedAt := now, attempts := j.attempts + 1,
         claimToken := Some(token), claimedAt := Some(now), claimExpiresAt := Some(now + l.leaseMs))
    case Acknowledged(_, _, now) =>
      Unclaimed(j).(state := Delivered, updatedAt := now, deliveredAt := Some(now), package := None,
                    result := Acknowledgement)
    case Failed(_, _, retryable, reason, now) =>
      if retryable && j.attempts < l.maxAttempts && j.package.Some? then Requeued(j, Retry(reason), now)
      else Buried(j, reason, now)
    case ClaimLapsed(now) =>
      if j.package.Some? && j.attempts < l.maxAttempts && now < j.expiresAt then Requeued(j, ClaimRecovered, now)
      else Buried(j, CLAIM_EXPIRED, now)
    case Expired(now) => Buried(j, if j.state.Pending? then JOB_EXPIRED else ATTESTATION_TIMEOUT, now)
    case PackageRejected(now) => Buried(j, SEALED_PACKAGE_INVALID, now)
    case Attested(attestation, now) =>
      Unclaimed(j).(state := Completed, updatedAt := now, completedAt := Some(now), package := None,
                    result := Verdict(attestation))
  }

  // ----- what the changes mean -----

  /** What a change never touches: who the job is for, what it delivers, and until when. */
  predicate SameErrand(was: Job, job: Job) {
    && job.id == was.id && job.provider == was.provider && job.content == was.content
    && job.createdAt == was.createdAt && job.expiresAt == was.expiresAt && job.packageSha256 == was.packageSha256
  }

  predicate Unclaimable(job: Job) {
    job.claimToken.None? && job.claimedAt.None? && job.claimExpiresAt.None?
  }

  /** Fresh in the queue: due at once, never tried, with its package sealed for this provider. */
  predicate FreshlyQueued(l: Limits, job: Job, id: nat, provider: nat, content: nat, now: int) {
    && job.id == id && job.provider == provider && job.content == content
    && job.state.Pending? && job.createdAt == job.updatedAt == job.nextAttemptAt == now
    && job.expiresAt == now + l.ttlMs && job.attempts == 0 && Unclaimable(job)
    && job.package == Some(Package(id, provider, content)) && PackageIntact(job)
    && job.deliveredAt.None? && job.completedAt.None? && job.deadLetteredAt.None? && job.result.NoResult?
  }

  /** Out with the provider, under this token, for one claim lease. */
  predicate HandedOut(l: Limits, was: Job, job: Job, token: nat, now: int) {
    && SameErrand(was, job) && job.state.Inflight? && job.attempts == was.attempts + 1
    && job.claimToken == Some(token) && job.claimedAt == Some(now) && job.claimExpiresAt == Some(now + l.leaseMs)
    && job.updatedAt == now && job.package == was.package
  }

  /** Back in the queue: due at once, the attempt spent, the package kept. */
  predicate DueAgain(was: Job, job: Job, result: Result, now: int) {
    && SameErrand(was, job) && job.state.Pending? && job.attempts == was.attempts && Unclaimable(job)
    && job.nextAttemptAt == job.updatedAt == now && job.package == was.package && job.result == result
  }

  predicate GivenUp(was: Job, job: Job, reason: nat, now: int) {
    && SameErrand(was, job) && job.state.DeadLetter? && job.attempts == was.attempts && Unclaimable(job)
    && job.deadLetteredAt == Some(now) && job.updatedAt == now && job.package.None? && job.result == Dead(reason)
  }

  predicate Received(was: Job, job: Job, now: int) {
    && SameErrand(was, job) && job.state.Delivered? && job.attempts == was.attempts && Unclaimable(job)
    && job.deliveredAt == Some(now) && job.updatedAt == now && job.package.None? && job.result.Acknowledgement?
  }

  predicate AttestedBy(was: Job, job: Job, attestation: nat, now: int) {
    && SameErrand(was, job) && job.state.Completed? && job.attempts == was.attempts && Unclaimable(job)
    && job.completedAt == Some(now) && job.updatedAt == now && job.package.None?
    && job.result == Verdict(attestation)
  }

  /** What every stored record satisfies: the claim fields are set exactly while inflight, the sealed
      package is kept exactly while it may still be handed out, attempts stay in their bounds, the
      deadline is where queueing put it, and a claim outlives it by less than one claim lease. */
  ghost predicate JobInv(l: Limits, j: Job) {
    && j.expiresAt == j.createdAt + l.ttlMs
    && (j.claimToken.Some? <==> j.state.Inflight?)
    && (j.claimExpiresAt.Some? <==> j.state.Inflight?)
    && (j.package == if j.state.Pending? || j.state.Inflight? then Some(Package(j.id, j.provider, j.content)) else None)
    && j.packageSha256 == Sha256(Package(j.id, j.provider, j.content))
    && (j.state.Pending? ==> j.attempts < l.maxAttempts)
    && (j.state.Inflight? ==> j.attempts >= 1 && j.claimExpiresAt.value < j.expiresAt + l.leaseMs)
    && j.attempts <= l.maxAttempts
  }

  /** What each change makes of a stored record. */
  lemma ChangeMeans(l: Limits, j: Job, e: Event)
    requires JobInv(l, j) && Allowed(j, e)
    ensures var job := Changed(l, j, e);
            match e
            case Claimed(token, now) => HandedOut(l, j, job, token, now)
            case Acknowledged(_, _, now) => Received(j, job, now)
            case Failed(_, _, retryable, reason, now) =>
              if retryable && j.attempts < l.maxAttempts then DueAgain(j, job, Retry(reason), now)
              else GivenUp(j, job, reason, now)
            case ClaimLapsed(now) =>
              if j.attempts < l.maxAttempts && now < j.expiresAt then DueAgain(j, job, ClaimRecovered, now)
              else GivenUp(j, job, CLAIM_EXPIRED, now)
            case Expired(now) => GivenUp(j, job, if j.state.Pending? then JOB_EXPIRED else ATTESTATION_TIMEOUT, now)
            case PackageRejected(now) => GivenUp(j, job, SEALED_PACKAGE_INVALID, now)
            case Attested(attestation, now) => AttestedBy(j, job, attestation, now)
  {
  }

  lemma ChangeKeepsJobInv(l: Limits, j: Job, e: Event)
    requires JobInv(l, j) && Allowed(j, e)
    ensures JobInv(l, Changed(l, j, e))
    ensures Changed(l, j, e).id == j.id && Changed(l, j, e).state != j.state
    ensures !e.PackageRejected?
  {
  }

  // ----- delivery terminates -----

  function StateRank(s: State): nat {
    match s
    case Inflight => 4
    case Pending => 3
    case Delivered => 2
    case DeadLetter => 1
    case Completed => 0
  }

  function Measure(l: Limits, j: Job): int {
    5 * (l.maxAttempts - j.attempts) + StateRank(j.state)
  }

  /** Every change other than queueing afresh uses up the measure, and no measure is negative. */
  lemma ChangeDecreasesMeasure(l: Limits, j: Job, e: Event)
    requires JobInv(l, j) && Allowed(j, e)
    ensures 0 <= Measure(l, Changed(l, j, e)) < Measure(l, j)
  {
  }

  // ----- files and disk operations -----

  datatype Slot = Slot(dir: State, id: nat)

  type Files = map<Slot, Job>

  datatype Place = Place(dir: State, job: Job)

  /** The first directory, in their fixed order, holding the job's file. */
  function Find(files: Files, id: nat): Option<Place> {
    if Slot(Pending, id) in files then Some(Place(Pending, files[Slot(Pending, id)]))
    else if Slot(Inflight, id) in files then Some(Place(Inflight, files[Slot(Inflight, id)]))
    else if Slot(Delivered, id) in files then Some(Place(Delivered, files[Slot(Delivered, id)]))
    else if Slot(Completed, id) in files then Some(Place(Completed, files[Slot(Completed, id)]))
    else if Slot(DeadLetter, id) in files then Some(Place(DeadLetter, files[Slot(DeadLetter, id)]))
    else None
  }

  /** Each job id is in at most one directory, in a file named after it. A completed record never
      changes again, so only its own directory is always in order. */
  ghost predicate WellPlaced(files: Files) {
    && (forall s, t :: s in files && t in files && s.id == t.id ==> s == t)
    && (forall s :: s in files ==> files[s].id == s.id && (s.dir.Completed? ==> files[s].state.Completed?))
  }

  lemma FindExact(files: Files, slot: Slot)
    requires WellPlaced(files)
    ensures slot in files <==> Find(files, slot.id).Some? && Find(files, slot.id).value.dir == slot.dir
    ensures slot in files ==> Find(files, slot.id) == Some(Place(slot.dir, files[slot]))
  {
    var found := Find(files, slot.id);
    if slot in files {
      assert forall dir :: Slot(dir, slot.id) in files ==> dir == slot.dir;
      assert Slot(slot.dir, slot.id) in files;
    } else if found.Some? {
      assert Slot(found.value.dir, slot.id) in files;
      assert slot == Slot(slot.dir, slot.id);
    }
  }

  lemma FindUnchanged(files: Files, files': Files, id: nat)
    requires forall dir :: Slot(dir, id) in files <==> Slot(dir, id) in files'
    requires forall dir :: Slot(dir, id) in files ==> files[Slot(dir, id)] == files'[Slot(dir, id)]
    ensures Find(files, id) == Find(files', id)
  {
  }

  datatype DiskOp =
    | Create(job: Job)
    | Rewrite(slot: Slot, event: Event)
    | Replace(slot: Slot, job: Job)
    | Rename(slot: Slot)
    | Remove(slot: Slot)

  /** The files, and which claim tokens have ever been handed out and used up. */
  datatype World = World(files: Files, issued: set<nat>, spent: set<nat>)

  predicate IsNew(l: Limits, j: Job) {
    j == NewJob(l, j.id, j.provider, j.content, j.createdAt)
  }

  ghost predicate OpAllowed(l: Limits, w: World, op: DiskOp) {
    match op
    case Create(job) => IsNew(l, job) && forall s :: s in w.files ==> s.id != job.id
    case Rewrite(slot, event) =>
      && slot in w.files && w.files[slot].state == slot.dir
      && Allowed(w.files[slot], event)
      && (event.Claimed? ==> event.token !in w.issued)
    case Replace(slot, job) =>
      && slot in w.files && w.files[slot].state == slot.dir == DeadLetter
      && IsNew(l, job) && job.id == slot.id
    case Rename(slot) =>
      && slot in w.files && w.files[slot].state != slot.dir
      && Slot(w.files[slot].state, slot.id) !in w.files
    case Remove(slot) => slot in w.files && (slot.dir.Completed? || slot.dir.DeadLetter?)
  }

  function Spends(event: Event): set<nat> {
    match event
    case Acknowledged(_, token, _) => {token}
    case Failed(_, token, _, _, _) => {token}
    case _ => {}
  }

  ghost function Apply(l: Limits, w: World, op: DiskOp): World
    requires OpAllowed(l, w, op)
  {
    match op
    case Create(job) => w.(files := w.files[Slot(Pending, job.id) := job])
    case Rewrite(slot, event) =>
      World(w.files[slot := Changed(l, w.files[slot], event)],
            w.issued + (if event.Claimed? then {event.token} else {}),
            w.spent + Spends(event))
    case Replace(slot, job) => w.(files := w.files[slot := job])
    case Rename(slot) => w.(files := Moved(w.files, slot))
    case Remove(slot) => w.(files := w.files - {slot})
  }

  function Moved(files: Files, slot: Slot): Files
    requires slot in files
  {
    (files - {slot})[Slot(files[slot].state, slot.id) := files[slot]]
  }

  predicate SameClaim(a: Job, b: Job) {
    a.claimToken.Some? && a.claimToken == b.claimToken
  }

  /** A token is stored in at most one record, and never once it has been used up. */
  ghost predicate TokensFresh(w: World) {
    && w.spent <= w.issued
    && (forall s :: s in w.files && w.files[s].claimToken.Some? ==>
          w.files[s].claimToken.value in w.issued && w.files[s].claimToken.value !in w.spent)
    && (forall s, t :: s in w.files && t in w.files && SameClaim(w.files[s], w.files[t]) ==> s == t)
  }

  ghost predicate WorldInv(l: Limits, w: World) {
    && WellPlaced(w.files)
    && (forall s :: s in w.files ==> JobInv(l, w.files[s]))
    && TokensFresh(w)
  }

  lemma RewriteKeepsTokens(l: Limits, w: World, slot: Slot, event: Event)
    requires TokensFresh(w) && OpAllowed(l, w, Rewrite(slot, event))
    requires JobInv(l, w.files[slot]) && JobInv(l, Changed(l, w.files[slot], event))
    ensures TokensFresh(Apply(l, w, Rewrite(slot, event)))
  {
    var j, j' := w.files[slot], Changed(l, w.files[slot], event);
    assert j'.claimToken == (if event.Claimed? then Some(event.token) else None);
  }

  lemma RewriteKeepsInv(l: Limits, w: World, slot: Slot, event: Event)
    requires WorldInv(l, w) && OpAllowed(l, w, Rewrite(slot, event))
    ensures WorldInv(l, Apply(l, w, Rewrite(slot, event)))
  {
    ChangeKeepsJobInv(l, w.files[slot], event);
    RewriteKeepsTokens(l, w, slot, event);
  }

  lemma RenameKeepsInv(l: Limits, w: World, slot: Slot)
    requires WorldInv(l, w) && OpAllowed(l, w, Rename(slot))
    ensures WorldInv(l, Apply(l, w, Rename(slot)))
  {
    var files' := Moved(w.files, slot);
    assert forall s :: s in files' ==> s == Slot(w.files[slot].state, slot.id) || s in w.files;
  }

  lemma OpKeepsInv(l: Limits, w: World, op: DiskOp)
    requires ValidLimits(l) && WorldInv(l, w) && OpAllowed(l, w, op)
    ensures WorldInv(l, Apply(l, w, op))
  {
    match op
    case Rewrite(slot, event) => RewriteKeepsInv(l, w, slot, event);
    case Rename(slot) => RenameKeepsInv(l, w, slot);
    case _ =>
  }

  // ----- refinement of the abstract map -----

  function FindJob(files: Files, id: nat): Option<Job> {
    var place := Find(files, id);
    if place.None? then None else Some(place.value.job)
  }

  /** What the operation does to the abstract map from job id to record, seen at one id. Renames are
      invisible there, so a crash between a rewrite and its rename loses nothing. */
  function AbstractStep(l: Limits, op: DiskOp, id: nat, before: Option<Job>): Option<Job> {
    match op
    case Create(job) => if id == job.id then Some(job) else before
    case Rewrite(slot, event) => if id == slot.id && before.Some? then Some(Changed(l, before.value, event)) else before
    case Replace(slot, job) => if id == slot.id then Some(job) else before
    case Rename(_) => before
    case Remove(slot) => if id == slot.id then None else before
  }

  lemma DiskRefinesMap(l: Limits, w: World, op: DiskOp, id: nat)
    requires ValidLimits(l) && WorldInv(l, w) && OpAllowed(l, w, op)
    ensures FindJob(Apply(l, w, op).files, id) == AbstractStep(l, op, id, FindJob(w.files, id))
  {
    OpKeepsInv(l, w, op);
    var w' := Apply(l, w, op);
    if id != (if op.Create? then op.job.id else op.slot.id) {
      FindUnchanged(w.files, w'.files, id);
    } else if op.Create? {
      FindExact(w'.files, Slot(Pending, id));
      assert FindJob(w.files, id).None?;
    } else if op.Rename? {
      FindExact(w.files, op.slot);
      FindExact(w'.files, Slot(w.files[op.slot].state, id));
    } else if op.Remove? {
      FindExact(w.files, op.slot);
      assert forall dir :: Slot(dir, id) !in w'.files;
    } else {
      FindExact(w.files, op.slot);
      FindExact(w'.files, op.slot);
    }
  }

  // ----- logs -----

  const EMPTY_WORLD := World(map[], {}, {})

  ghost predicate Legal(l: Limits, log: seq<DiskOp>)
    decreases |log|, 0
  {
    log == [] ||
    (Legal(l, log[..|log| - 1]) && OpAllowed(l, Reached(l, log[..|log| - 1]), log[|log| - 1]))
  }

  ghost function Reached(l: Limits, log: seq<DiskOp>): World
    requires Legal(l, log)
    decreases |log|, 1
  {
    if log == [] then EMPTY_WORLD
    else Apply(l, Reached(l, log[..|log| - 1]), log[|log| - 1])
  }

  lemma LogStep(l: Limits, log: seq<DiskOp>, op: DiskOp)
    requires Legal(l, log) && OpAllowed(l, Reached(l, log), op)
    ensures Legal(l, log + [op]) && Reached(l, log + [op]) == Apply(l, Reached(l, log), op)
  {
    assert (log + [op])[..|log|] == log;
  }

  lemma {:induction false} PrefixLegal(l: Limits, log: seq<DiskOp>, n: nat)
    requires Legal(l, log) && n <= |log|
    ensures Legal(l, log[..n])
    decreases |log|
  {
    if n < |log| {
      PrefixLegal(l, log[..|log| - 1], n);
      assert log[..|log| - 1][..n] == log[..n];
    } else {
      assert log[..n] == log;
    }
  }

  lemma {:induction false} ReachedInv(l: Limits, log: seq<DiskOp>)
    requires ValidLimits(l) && Legal(l, log)
    ensures WorldInv(l, Reached(l, log))
    decreases |log|
  {
    if log != [] {
      ReachedInv(l, log[..|log| - 1]);
      OpKeepsInv(l, Reached(l, log[..|log| - 1]), log[|log| - 1]);
    }
  }

  /** Wherever a crash cuts a run off, each job id is in at most one directory, every record satisfies
      its invariant, and a claim token sits in at most one record and in none once used. */
  lemma CrashStatesInv(l: Limits, log: seq<DiskOp>, n: nat)
    requires ValidLimits(l) && Legal(l, log) && n <= |log|
    ensures Legal(l, log[..n]) && WorldInv(l, Reached(l, log[..n]))
  {
    PrefixLegal(l, log, n);
    ReachedInv(l, log[..n]);
  }

  // ----- claim ownership -----

  ghost predicate IsClaim(op: DiskOp, id: nat, token: nat, expiresAt: int, l: Limits) {
    op.Rewrite? && op.slot.id == id && op.event.Claimed? && op.event.token == token
      && op.event.now + l.leaseMs == expiresAt
  }

  ghost predicate ClaimInLog(l: Limits, log: seq<DiskOp>, id: nat, token: nat, expiresAt: int) {
    exists k :: 0 <= k < |log| && IsClaim(log[k], id, token, expiresAt, l)
  }

  ghost predicate ClaimsLogged(l: Limits, log: seq<DiskOp>, files: Files) {
    forall s :: s in files && files[s].state.Inflight? && files[s].claimToken.Some? && files[s].claimExpiresAt.Some? ==>
      ClaimInLog(l, log, s.id, files[s].claimToken.value, files[s].claimExpiresAt.value)
  }

  lemma ClaimStillInLog(l: Limits, init: seq<DiskOp>, log: seq<DiskOp>, id: nat, token: nat, expiresAt: int)
    requires init <= log && ClaimInLog(l, init, id, token, expiresAt)
    ensures ClaimInLog(l, log, id, token, expiresAt)
  {
    var k :| 0 <= k < |init| && IsClaim(init[k], id, token, expiresAt, l);
    assert log[k] == init[k];
  }

  /** A claimed record was just claimed, or was there before, perhaps in another directory. */
  lemma InflightFrom(l: Limits, w: World, op: DiskOp, s: Slot) returns (t: Slot)
    requires WorldInv(l, w) && OpAllowed(l, w, op) && s in Apply(l, w, op).files
    requires var j := Apply(l, w, op).files[s]; j.state.Inflight? && j.claimToken.Some? && j.claimExpiresAt.Some?
    ensures var j := Apply(l, w, op).files[s];
            || IsClaim(op, s.id, j.claimToken.value, j.claimExpiresAt.value, l)
            || (t in w.files && t.id == s.id && w.files[t] == j)
  {
    t := if op.Rename? && s !in w.files then op.slot else s;
  }

  lemma {:induction false} InflightClaimsLogged(l: Limits, log: seq<DiskOp>)
    requires ValidLimits(l) && Legal(l, log)
    ensures ClaimsLogged(l, log, Reached(l, log).files)
    decreases |log|
  {
    if log != [] {
      var init, op := log[..|log| - 1], log[|log| - 1];
      InflightClaimsLogged(l, init);
      ReachedInv(l, init);
      ClaimsStillLogged(l, init, Reached(l, init), op, log);
    }
  }

  lemma ClaimsStillLogged(l: Limits, init: seq<DiskOp>, w: World, op: DiskOp, log: seq<DiskOp>)
    requires WorldInv(l, w) && OpAllowed(l, w, op) && ClaimsLogged(l, init, w.files) && log == init + [op]
    ensures ClaimsLogged(l, log, Apply(l, w, op).files)
  {
    var files := Apply(l, w, op).files;
    forall s | s in files && files[s].state.Inflight? && files[s].claimToken.Some? && files[s].claimExpiresAt.Some?
      ensures ClaimInLog(l, log, s.id, files[s].claimToken.value, files[s].claimExpiresAt.value)
    {
      var t := InflightFrom(l, w, op, s);
      if IsClaim(op, s.id, files[s].claimToken.value, files[s].claimExpiresAt.value, l) {
        assert log[|init|] == op;
      } else {
        ClaimStillInLog(l, init, log, t.id, files[s].claimToken.value, files[s].claimExpiresAt.value);
      }
    }
  }

  ghost predicate SpendsAt(log: seq<DiskOp>, i: int, token: nat) {
    0 <= i < |log| && log[i].Rewrite? && token in Spends(log[i].event)
  }

  function Actor(event: Event): Option<nat> {
    match event
    case Acknowledged(provider, _, _) => Some(provider)
    case Failed(provider, _, _, _, _) => Some(provider)
    case _ => None
  }

  function EventTime(event: Event): int {
    event.now
  }

  lemma {:induction false} SpentStaysSpent(l: Limits, log: seq<DiskOp>, i: nat, token: nat)
    requires Legal(l, log) && SpendsAt(log, i, token)
    ensures token in Reached(l, log).spent
    decreases |log|
  {
    var init := log[..|log| - 1];
    if i < |log| - 1 {
      assert init[i] == log[i];
      SpentStaysSpent(l, init, i, token);
    }
  }

  /** Each claim token leads to at most one successful acknowledge or fail. It was handed out by one
      earlier claim of the same job, the actor is the provider the job's package is sealed to, and it
      acts before that claim expires. */
  lemma ClaimOwnership(l: Limits, log: seq<DiskOp>, i: nat, token: nat)
    requires ValidLimits(l) && Legal(l, log) && SpendsAt(log, i, token)
    ensures Legal(l, log[..i])
    ensures forall j :: i < j < |log| ==> !SpendsAt(log, j, token)
    ensures var w := Reached(l, log[..i]);
            && log[i].slot in w.files
            && w.files[log[i].slot].package ==
              Some(Package(log[i].slot.id, Actor(log[i].event).value, w.files[log[i].slot].content))
    ensures exists expiresAt ::
              ClaimInLog(l, log[..i], log[i].slot.id, token, expiresAt) && EventTime(log[i].event) < expiresAt
  {
    AtIndex(l, log, i);
    var w := Reached(l, log[..i]);
    ReachedInv(l, log[..i]);
    InflightClaimsLogged(l, log[..i]);
    var j := w.files[log[i].slot];
    assert ClaimInLog(l, log[..i], log[i].slot.id, token, j.claimExpiresAt.value);
    forall k | i < k < |log| ensures !SpendsAt(log, k, token) {
      AtIndex(l, log, k);
      ReachedInv(l, log[..k]);
      assert log[..k][i] == log[i];
      SpentStaysSpent(l, log[..k], i, token);
    }
  }

  lemma AtIndex(l: Limits, log: seq<DiskOp>, i: nat)
    requires Legal(l, log) && i < |log|
    ensures Legal(l, log[..i]) && OpAllowed(l, Reached(l, log[..i]), log[i])
  {
    PrefixLegal(l, log, i + 1);
    assert log[..i + 1][..i] == log[..i];
  }

  // ----- delivery terminates, on logs -----

  predicate Queues(op: DiskOp, id: nat) {
    (op.Create? && op.job.id == id) || (op.Replace? && op.slot.id == id)
  }

  predicate Changes(op: DiskOp, id: nat) {
    op.Rewrite? && op.slot.id == id
  }

  /** How often the job changed since it was last queued. */
  function ChangesSince(log: seq<DiskOp>, id: nat): nat
    decreases |log|
  {
    if log == [] || Queues(log[|log| - 1], id) then 0
    else ChangesSince(log[..|log| - 1], id) + if Changes(log[|log| - 1], id) then 1 else 0
  }

  /** How often the job was claimed since it was last queued. */
  function ClaimsSince(log: seq<DiskOp>, id: nat): nat
    decreases |log|
  {
    if log == [] || Queues(log[|log| - 1], id) then
      0
    else
      ClaimsSince(log[..|log| - 1], id) +
      if Changes(log[|log| - 1], id) && log[|log| - 1].event.Claimed? then 1 else 0
  }

  /** In every run, and wherever a crash cuts it off, a job is claimed at most `maxAttempts` times from one
      queueing to the next, each claim is on its attempt counter, and its delivery is over after boundedly
      many changes. */
  lemma {:induction false} DeliveryTerminates(l: Limits, log: seq<DiskOp>, id: nat)
    requires ValidLimits(l) && Legal(l, log)
    ensures ClaimsSince(log, id) <= l.maxAttempts && ChangesSince(log, id) <= 5 * l.maxAttempts + 3
    ensures var job := FindJob(Reached(l, log).files, id);
            job.Some? ==>
              && job.value.attempts == ClaimsSince(log, id)
              && 0 <= Measure(l, job.value) <= 5 * l.maxAttempts + 3 - ChangesSince(log, id)
    decreases |log|
  {
    if log != [] {
      var init, op := log[..|log| - 1], log[|log| - 1];
      DeliveryTerminates(l, init, id);
      ReachedInv(l, init);
      DeliveryStep(l, Reached(l, init), op, id);
    }
  }

  /** One step's use of the attempt counter and the measure. */
  lemma DeliveryStep(l: Limits, w: World, op: DiskOp, id: nat)
    requires ValidLimits(l) && WorldInv(l, w) && OpAllowed(l, w, op)
    ensures var was, job := FindJob(w.files, id), FindJob(Apply(l, w, op).files, id);
            if Queues(op, id) then
              job.Some? && job.value.attempts == 0 && Measure(l, job.value) == 5 * l.maxAttempts + 3
            else if Changes(op, id) then
              && was.Some? && job.Some? && 0 <= Measure(l, job.value) < Measure(l, was.value)
              && job.value.attempts == was.value.attempts + (if op.event.Claimed? then 1 else 0) <= l.maxAttempts
            else
              job == was || job.None?
  {
    DiskRefinesMap(l, w, op, id);
    if Changes(op, id) {
      FindExact(w.files, op.slot);
      ChangeDecreasesMeasure(l, w.files[op.slot], op.event);
      ChangeKeepsJobInv(l, w.files[op.slot], op.event);
    }
  }

  // ----- what removals lose -----

  /** The jobs removed while their record did not say the state of the directory it lay in. */
  ghost function Lost(l: Limits, log: seq<DiskOp>): multiset<nat>
    requires Legal(l, log)
    decreases |log|
  {
    if log == [] then multiset{}
    else Lost(l, log[..|log| - 1]) + Loses(Reached(l, log[..|log| - 1]).files, log[|log| - 1])
  }

  function Loses(files: Files, op: DiskOp): multiset<nat> {
    if op.Remove? && op.slot in files && files[op.slot].state != op.slot.dir then multiset{op.slot.id} else multiset{}
  }

  lemma LostStep(l: Limits, log: seq<DiskOp>, op: DiskOp)
    requires Legal(l, log) && OpAllowed(l, Reached(l, log), op)
    ensures Legal(l, log + [op]) && Lost(l, log + [op]) == Lost(l, log) + Loses(Reached(l, log).files, op)
  {
    assert (log + [op])[..|log|] == log;
  }

  lemma {:induction false} LostGrows(l: Limits, log: seq<DiskOp>, n: nat)
    requires Legal(l, log) && n <= |log|
    ensures Legal(l, log[..n]) && Lost(l, log[..n]) <= Lost(l, log)
    decreases |log|
  {
    PrefixLegal(l, log, n);
    if n < |log| {
      LostGrows(l, log[..|log| - 1], n);
      assert log[..|log| - 1][..n] == log[..n];
    } else {
      assert log[..n] == log;
    }
  }

  /** The removal at `k` finds a record that says the state of its directory. */
  ghost predicate SafeRemoval(l: Limits, log: seq<DiskOp>, k: nat)
    requires k < |log|
  {
    log[k].Remove? ==>
      && Legal(l, log[..k]) && log[k].slot in Reached(l, log[..k]).files
      && Reached(l, log[..k]).files[log[k].slot].state == log[k].slot.dir
  }

  /** From `n` on, a run removes nothing that its record does not call finished. */
  ghost predicate SafeFrom(l: Limits, log: seq<DiskOp>, n: nat) {
    forall k: nat :: n <= k < |log| ==> SafeRemoval(l, log, k)
  }

  lemma {:induction false} NothingLostIffSafe(l: Limits, log: seq<DiskOp>, n: nat)
    requires Legal(l, log) && n <= |log|
    ensures Legal(l, log[..n])
    ensures SafeFrom(l, log, n) <==> Lost(l, log) == Lost(l, log[..n])
    decreases |log|
  {
    PrefixLegal(l, log, n);
    if n == |log| {
      assert log[..n] == log;
    } else {
      var init, op := log[..|log| - 1], log[|log| - 1];
      NothingLostIffSafe(l, init, n);
      LostGrows(l, init, n);
      assert init[..n] == log[..n];
      SafeOneMore(l, log, n);
    }
  }

  lemma SafeOneMore(l: Limits, log: seq<DiskOp>, n: nat)
    requires log != [] && n < |log| && Legal(l, log)
    ensures var init, op := log[..|log| - 1], log[|log| - 1];
            SafeFrom(l, log, n) <==> SafeFrom(l, init, n) && Loses(Reached(l, init).files, op) == multiset{}
  {
    var init, op := log[..|log| - 1], log[|log| - 1];
    forall k: nat | n <= k < |init| ensures SafeRemoval(l, init, k) <==> SafeRemoval(l, log, k) {
      assert init[..k] == log[..k];
    }
    assert SafeRemoval(l, log, |log| - 1) <==> Loses(Reached(l, init).files, op) == multiset{};
  }

  // ----- records written among the dead letters -----

  /** Requeueing and completing write a dead letter's new record where it lies; the rename comes after. */
  function Strayed(op: DiskOp): multiset<nat> {
    if (op.Rewrite? || op.Replace?) && op.slot.dir.DeadLetter? then multiset{op.slot.id} else multiset{}
  }

  function Returned(op: DiskOp): multiset<nat> {
    if op.Rename? && op.slot.dir.DeadLetter? then multiset{op.slot.id} else multiset{}
  }

  /** The jobs whose new record was left among the dead letters and never moved on. */
  function Strays(log: seq<DiskOp>): multiset<nat>
    decreases |log|
  {
    if log == [] then multiset{}
    else Strays(log[..|log| - 1]) + Strayed(log[|log| - 1]) - Returned(log[|log| - 1])
  }

  lemma StraysStep(log: seq<DiskOp>, op: DiskOp)
    ensures Strays(log + [op]) == Strays(log) + Strayed(op) - Returned(op)
  {
    assert (log + [op])[..|log|] == log;
  }

  // ----- what a log comes to -----

  datatype Ledger = Ledger(world: World, lost: multiset<nat>, strays: multiset<nat>)

  /** The ledger is what the log comes to. It is stated of every log equal to this one, so that a proof
      unfolds the history only where it asks for it. */
  ghost predicate Recorded(l: Limits, log: seq<DiskOp>, ledger: Ledger) {
    forall run: seq<DiskOp> ::
      run == log ==> Legal(l, run) && ledger == Ledger(Reached(l, run), Lost(l, run), Strays(run))
  }

  ghost function Entered(l: Limits, ledger: Ledger, op: DiskOp): Ledger
    requires OpAllowed(l, ledger.world, op)
  {
    Ledger(Apply(l, ledger.world, op), ledger.lost + Loses(ledger.world.files, op),
           ledger.strays + Strayed(op) - Returned(op))
  }

  lemma RecordedOpen(l: Limits, log: seq<DiskOp>, ledger: Ledger)
    requires Recorded(l, log, ledger)
    ensures Legal(l, log) && ledger.world == Reached(l, log) && ledger.lost == Lost(l, log)
            && ledger.strays == Strays(log)
  {
  }

  lemma RecordedStep(l: Limits, log: seq<DiskOp>, ledger: Ledger, op: DiskOp)
    requires Recorded(l, log, ledger) && OpAllowed(l, ledger.world, op)
    ensures Recorded(l, log + [op], Entered(l, ledger, op))
  {
    RecordedOpen(l, log, ledger);
    LogStep(l, log, op);
    LostStep(l, log, op);
    StraysStep(log, op);
  }

  lemma RecordedInv(l: Limits, log: seq<DiskOp>, ledger: Ledger)
    requires ValidLimits(l) && Recorded(l, log, ledger)
    ensures WorldInv(l, ledger.world)
  {
    RecordedOpen(l, log, ledger);
    ReachedInv(l, log);
  }
}
