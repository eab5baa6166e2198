/**
 Assurance bundles for one recipient, src/evidence/evidenceAssuranceBundleStore.js: sealed packages
 waiting to be pulled, claimed under a token, and acknowledged.

 A step is one file written or removed, under the check the code makes right before it.
 */
module BundleStore {
  import opened Prelude
  import opened Retention
  import opened Runs

  datatype State = Pending | Claimed | Delivered | Expired

  datatype Package = Package(bundle: nat, payload: nat, bytes: nat)

  datatype PackageDigest = PackageSha256(preimage: Package)

  datatype TokenHash = TokenSha256(token: nat)

  /** Everything a bundle's identifier digests and its package seals. */
  datatype Source = Source(evidenceId: nat, version: nat, contentSha256: nat, payload: nat, bytes: nat)

  datatype Bundle = Bundle(
    id: nat, evidenceId: nat, version: nat, contentSha256: nat, createdAt: int, expiresAt: int, state: State,
    claimTokenHash: Option<TokenHash>, claimedAt: Option<int>, claimExpiresAt: Option<int>, deliveredAt: Option<int>,
    packageSha256: PackageDigest, sealedPackage: Option<Package>)

  type Bundles = map<nat, Bundle>

  datatype Config = Config(ttlMs: nat, leaseMs: nat, claimBytes: nat, retained: nat)

  datatype QueueOutcome = Queued(bundle: Bundle) | Resealed(bundle: Bundle) | AlreadyQueued(bundle: Bundle) | Conflict

  datatype AckOutcome = Acknowledged(bundle: Bundle) | AlreadyDelivered(bundle: Bundle) | NotFound | NotActive
    | ProofInvalid

  function NewBundle(id: nat, s: Source, createdAt: int, ttlMs: nat): Bundle {
    var sealed := Package(id, s.payload, s.bytes);
    Bundle(id, s.evidenceId, s.version, s.contentSha256, createdAt, createdAt + ttlMs, Pending, None, None, None, None,
           PackageSha256(sealed), Some(sealed))
  }

  predicate Live(b: Bundle) {
    b.state.Pending? || b.state.Claimed?
  }

  predicate Terminal(b: Bundle) {
    b.state.Delivered? || b.state.Expired?
  }

  // ----- how a record changes -----

  function Unclaimed(b: Bundle): Bundle {
    b.(state := Pending, claimTokenHash := None, claimedAt := None, claimExpiresAt := None)
  }

  function ExpiredFrom(b: Bundle): Bundle {
    b.(state := Expired, claimTokenHash := None, claimExpiresAt := None, sealedPackage := None)
  }

  /** One record's maintenance: a lapsed claim goes back to pending, and what is overdue expires. */
  function Maintained(b: Bundle, now: int): Bundle {
    var reopened :=
      if b.state.Claimed? && b.claimExpiresAt.Some? && b.claimExpiresAt.value <= now then Unclaimed(b) else b;
    if Live(reopened) && reopened.expiresAt <= now then ExpiredFrom(reopened) else reopened
  }

  function ClaimedFrom(b: Bundle, token: nat, now: int, leaseMs: nat): Bundle {
    b.(state := Claimed, claimTokenHash := Some(TokenSha256(token)), claimedAt := Some(now),
       claimExpiresAt := Some(now + leaseMs))
  }

  function DeliveredFrom(b: Bundle, now: int): Bundle {
    b.(state := Delivered, deliveredAt := Some(now), claimTokenHash := None, claimExpiresAt := None,
       sealedPackage := None)
  }

  predicate SameBundle(b: Bundle, s: Source) {
    b.evidenceId == s.evidenceId && b.version == s.version && b.contentSha256 == s.contentSha256
  }

  /** The proof of a claim: it is running, and both its token and the digest of its package are shown. */
  predicate Proves(b: Bundle, token: nat, packageSha256: PackageDigest, now: int) {
    && b.state.Claimed? && b.claimExpiresAt.Some? && b.claimExpiresAt.value > now
    && b.claimTokenHash == Some(TokenSha256(token)) && b.packageSha256 == packageSha256
  }

  // ----- runs -----

  datatype System = System(config: Config, bundles: Bundles)

  datatype Op =
    | Create(id: nat, source: Source, createdAt: int)
    | Reseal(id: nat, source: Source, createdAt: int)
    | Maintain(id: nat, now: int)
    | Claim(id: nat, token: nat, now: int)
    | Deliver(id: nat, token: nat, packageSha256: PackageDigest, now: int)
    | Remove(id: nat)

  ghost function Step(s: System, op: Op): Option<System> {
    match op
    case Create(id, source, createdAt) =>
      if id !in s.bundles then Saved(s, id, NewBundle(id, source, createdAt, s.config.ttlMs)) else None
    case Reseal(id, source, createdAt) =>
      if id in s.bundles && SameBundle(s.bundles[id], source) && s.bundles[id].state.Expired?
      then Saved(s, id, NewBundle(id, source, createdAt, s.config.ttlMs)) else None
    case Maintain(id, now) =>
      if id in s.bundles then Saved(s, id, Maintained(s.bundles[id], now)) else None
    case Claim(id, token, now) =>
      if id in s.bundles && s.bundles[id].state.Pending?
      then Saved(s, id, ClaimedFrom(s.bundles[id], token, now, s.config.leaseMs)) else None
    case Deliver(id, token, packageSha256, now) =>
      if id in s.bundles && Proves(s.bundles[id], token, packageSha256, now)
      then Saved(s, id, DeliveredFrom(s.bundles[id], now)) else None
    case Remove(id) =>
      if id in s.bundles && Terminal(s.bundles[id]) then Some(s.(bundles := s.bundles - {id})) else None
  }

  function Saved(s: System, id: nat, b: Bundle): Option<System> {
    Some(System(s.config, s.bundles[id := b]))
  }

  ghost function After(c: Config, log: seq<Op>): Option<System> {
    Run(System(c, map[]), Step, log)
  }

  /** The state `n` steps into a run. */
  ghost function At(c: Config, log: seq<Op>, n: nat): System
    requires After(c, log).Some? && n <= |log|
  {
    PrefixRuns(System(c, map[]), Step, log, n);
    After(c, log[..n]).value
  }

  lemma AtNext(c: Config, log: seq<Op>, i: nat)
    requires After(c, log).Some? && i < |log|
    ensures Step(At(c, log, i), log[i]) == Some(At(c, log, i + 1))
  {
    StepAt(System(c, map[]), Step, log, i);
  }

  lemma AtEnd(c: Config, log: seq<Op>)
    requires After(c, log).Some?
    ensures At(c, log, |log|) == After(c, log).value
  {
    assert log[..|log|] == log;
  }

  /** The sealed package is there exactly while it can still be handed out, claim fields exactly while claimed. */
  predicate BundleInv(id: nat, b: Bundle) {
    && b.id == id
    && (b.sealedPackage.Some? <==> Live(b))
    && (b.sealedPackage.Some? ==>
        PackageSha256(b.sealedPackage.value) == b.packageSha256 && b.sealedPackage.value.bundle == id)
    && (b.claimTokenHash.Some? <==> b.state.Claimed?)
    && (b.claimExpiresAt.Some? <==> b.state.Claimed?)
    && (b.deliveredAt.Some? <==> b.state.Delivered?)
  }

  ghost predicate StateOk(bundles: Bundles) {
    forall id :: id in bundles ==> BundleInv(id, bundles[id])
  }

  lemma {:induction false} RunInv(c: Config, log: seq<Op>, n: nat)
    requires After(c, log).Some? && n <= |log|
    ensures StateOk(At(c, log, n).bundles) && At(c, log, n).config == c
  {
    if n > 0 {
      RunInv(c, log, n - 1);
      AtNext(c, log, n - 1);
    }
  }

  // ----- what the changes mean -----

  /** What no change but resealing touches. */
  predicate SameShipment(was: Bundle, b: Bundle) {
    && b.id == was.id && b.evidenceId == was.evidenceId && b.version == was.version
    && b.contentSha256 == was.contentSha256 && b.createdAt == was.createdAt && b.expiresAt == was.expiresAt
    && b.packageSha256 == was.packageSha256
  }

  /** Fresh in the queue, sealed for this source, with its whole time ahead. */
  predicate FreshlyQueued(b: Bundle, id: nat, s: Source, createdAt: int, ttlMs: nat) {
    && b.id == id && b.evidenceId == s.evidenceId && b.version == s.version && b.contentSha256 == s.contentSha256
    && b.state.Pending? && b.createdAt == createdAt && b.expiresAt == createdAt + ttlMs
    && b.claimTokenHash.None? && b.claimedAt.None? && b.claimExpiresAt.None? && b.deliveredAt.None?
    && b.sealedPackage == Some(Package(id, s.payload, s.bytes))
    && b.packageSha256 == PackageSha256(Package(id, s.payload, s.bytes))
  }

  /** What maintenance makes of a bundle: past its own deadline a live one has expired, package and all; before it, a
      claim that is over makes way for the next, and anything else is left alone. */
  predicate MaintainedAs(was: Bundle, b: Bundle, now: int) {
    var claimOver := was.state.Claimed? && was.claimExpiresAt.Some? && was.claimExpiresAt.value <= now;
    if (was.state.Pending? || was.state.Claimed?) && was.expiresAt <= now then
      && SameShipment(was, b) && b.state.Expired? && b.sealedPackage.None? && b.claimTokenHash.None?
      && b.claimExpiresAt.None? && b.deliveredAt == was.deliveredAt
      && b.claimedAt == if claimOver then None else was.claimedAt
    else if claimOver then
      && SameShipment(was, b) && b.state.Pending? && b.sealedPackage == was.sealedPackage && b.claimTokenHash.None?
      && b.claimedAt.None? && b.claimExpiresAt.None? && b.deliveredAt == was.deliveredAt
    else
      b == was
  }

  predicate HandedOut(was: Bundle, b: Bundle, token: nat, now: int, leaseMs: nat) {
    && SameShipment(was, b) && b.state.Claimed? && b.claimTokenHash == Some(TokenSha256(token))
    && b.claimedAt == Some(now) && b.claimExpiresAt == Some(now + leaseMs)
    && b.sealedPackage == was.sealedPackage && b.deliveredAt == was.deliveredAt
  }

  predicate Received(was: Bundle, b: Bundle, now: int) {
    && SameShipment(was, b) && b.state.Delivered? && b.deliveredAt == Some(now)
    && b.sealedPackage.None? && b.claimTokenHash.None? && b.claimExpiresAt.None? && b.claimedAt == was.claimedAt
  }

  ghost predicate AllMaintained(before: Bundles, after: Bundles, now: int) {
    after.Keys == before.Keys && forall id :: id in before ==> MaintainedAs(before[id], after[id], now)
  }

  ghost predicate MaintainedUpTo(before: Bundles, after: Bundles, done: seq<nat>, now: int) {
    && after.Keys == before.Keys
    && forall id :: id in before ==> after[id] == if id in done then Maintained(before[id], now) else before[id]
  }

  lemma MaintainStep(before: Bundles, was: Bundles, after: Bundles, names: seq<nat>, i: nat, now: int)
    requires Ascending(names) && i < |names| && names[i] in before
    requires MaintainedUpTo(before, was, names[..i], now)
    requires after == was[names[i] := Maintained(was[names[i]], now)]
    ensures MaintainedUpTo(before, after, names[..i + 1], now)
  {
    assert names[i] !in names[..i];
    assert names[..i + 1] == names[..i] + [names[i]];
  }

  /** What maintenance is for. */
  ghost predicate NothingOverdue(bundles: Bundles, now: int) {
    forall id :: id in bundles ==>
      && (Live(bundles[id]) ==> bundles[id].expiresAt > now)
      && (bundles[id].state.Claimed? ==> bundles[id].claimExpiresAt.Some? && bundles[id].claimExpiresAt.value > now)
  }

  lemma MaintenanceClears(before: Bundles, after: Bundles, now: int)
    requires StateOk(before) && AllMaintained(before, after, now)
    ensures NothingOverdue(after, now)
  {
    forall id | id in after
      ensures Live(after[id]) ==> after[id].expiresAt > now
      ensures after[id].state.Claimed? ==> after[id].claimExpiresAt.Some? && after[id].claimExpiresAt.value > now
    {
      assert BundleInv(id, before[id]);
    }
  }

  // ----- the claim budget -----

  /** What a package takes in a response. */
  function Estimate(b: Bundle): nat {
    if b.sealedPackage.Some? then b.sealedPackage.value.bytes + 1024 else 0
  }

  function TotalEstimate(bundles: Bundles, ids: seq<nat>): nat {
    if ids == [] then
      0
    else
      TotalEstimate(bundles, ids[..|ids| - 1]) +
      if ids[|ids| - 1] in bundles then Estimate(bundles[ids[|ids| - 1]]) else 0
  }

  function PendingIds(bundles: Bundles): set<nat> {
    set id | id in bundles && bundles[id].state.Pending?
  }

  datatype ClaimOutcome = Selected(bundles: seq<Bundle>) | TooLarge

  /** Who a claim picks from the pending bundles, in name order: as many as the limit and the byte budget
      allow, and none when the first alone breaks the budget. */
  ghost predicate PicksFirst(ready: Bundles, names: seq<nat>, picked: nat, limit: nat, claimBytes: nat) {
    && Lists(names, PendingIds(ready)) && picked <= |names| && picked <= limit
    && TotalEstimate(ready, names[..picked]) <= claimBytes
    && (picked < limit && picked < |names| ==> TotalEstimate(ready, names[..picked + 1]) > claimBytes)
  }

  /** The first bundles are claimed under the given tokens; the rest stay as they were. */
  ghost predicate ClaimedFirst(ready: Bundles, after: Bundles, names: seq<nat>, picked: nat, tokens: seq<nat>, now: int,
                               leaseMs: nat)
    requires picked <= |names| && picked <= |tokens|
  {
    && after.Keys == ready.Keys
    && (forall i :: 0 <= i < picked ==>
          names[i] in ready && names[i] in after
            && HandedOut(ready[names[i]], after[names[i]], tokens[i], now, leaseMs))
    && (forall id :: id in ready && id !in names[..picked] ==> after[id] == ready[id])
  }

  class Store {
    const config: Config
    var bundles: Bundles
    /** Everything that ever happened to the directory. */
    ghost var log: seq<Op>

    ghost predicate Valid()
      reads this
    {
      config.retained >= 1 && After(config, log) == Some(System(config, bundles))
    }

    /** Opens the store over what an earlier run, crashed or not, left behind. */
    constructor (config: Config, bundles: Bundles, ghost log: seq<Op>)
      requires config.retained >= 1 && After(config, log) == Some(System(config, bundles))
      ensures Valid() && this.config == config && this.bundles == bundles && this.log == log
    {
      this.config, this.bundles, this.log := config, bundles, log;
    }

    /** `replaceRecord` and `writeRecordExclusive`. */
    method Put(id: nat, b: Bundle, ghost op: Op)
      requires Valid() && Step(System(config, bundles), op) == Some(System(config, bundles[id := b]))
      modifies this`bundles, this`log
      ensures Valid() && log == old(log) + [op] && bundles == old(bundles)[id := b]
    {
      RunMore(System(config, map[]), Step, log, op);
      bundles, log := bundles[id := b], log + [op];
    }

    method Delete(id: nat)
      requires Valid() && id in bundles && Terminal(bundles[id])
      modifies this`bundles, this`log
      ensures Valid() && log == old(log) + [Remove(id)] && bundles == old(bundles) - {id}
    {
      RunMore(System(config, map[]), Step, log, Remove(id));
      bundles, log := bundles - {id}, log + [Remove(id)];
    }

    method MaintainOne(id: nat, now: int)
      requires Valid() && id in bundles
      modifies this`bundles, this`log
      ensures Valid() && old(log) <= log && bundles == old(bundles)[id := Maintained(old(bundles)[id], now)]
    {
      var record := Maintained(bundles[id], now);
      if record != bundles[id] {
        Put(id, record, Op.Maintain(id, now));
      }
    }

    /** `maintenanceLocked`, apart from the replay files. */
    method Maintain(now: int)
      requires Valid()
      modifies this`bundles, this`log
      ensures Valid() && old(log) <= log
      ensures AllMaintained(old(bundles), bundles, now) && NothingOverdue(bundles, now)
    {
      ghost var before := bundles;
      RunInv(config, log, |log|);
      AtEnd(config, log);
      var names := ReadSorted(bundles.Keys);
      var i := 0;
      while i < |names|
        invariant Valid() && old(log) <= log && i <= |names|
        invariant MaintainedUpTo(before, bundles, names[..i], now)
      {
        assert names[i] in names;
        ghost var was := bundles;
        MaintainOne(names[i], now);
        MaintainStep(before, was, bundles, names, i, now);
        i := i + 1;
      }
      assert names[..i] == names;
      MaintenanceClears(before, bundles, now);
    }

    method RemoveAll(rows: seq<nat>)
      requires Valid()
      requires forall i :: 0 <= i < |rows| ==> rows[i] in bundles && Terminal(bundles[rows[i]])
      requires forall i, j :: 0 <= i < j < |rows| ==> rows[i] != rows[j]
      modifies this`bundles, this`log
      ensures Valid() && old(log) <= log && bundles == old(bundles) - Items(rows)
    {
      ghost var before := bundles;
      var i := 0;
      while i < |rows|
        invariant Valid() && old(log) <= log
        invariant i <= |rows| && bundles == before - Items(rows[..i])
      {
        assert rows[i] !in rows[..i];
        WithoutNext(before, rows, i);
        Delete(rows[i]);
        i := i + 1;
      }
      assert rows[..i] == rows;
    }

    /** `pruneLocked`: the oldest delivered and expired bundles over the limit go. */
    method Prune()
      requires Valid()
      modifies this`bundles, this`log
      ensures Valid() && old(log) <= log
      ensures bundles == old(bundles) - Excess(TerminalAges(old(bundles)), config.retained)
      ensures OldestGone(old(bundles), bundles)
    {
      OldestGo(bundles, config.retained);
      var ages := TerminalAges(bundles);
      var rows := SortOldestFirst(ages);
      var cut := Cut(rows, config.retained);
      ExcessRows(ages, rows, config.retained);
      FirstRows(ages, rows, cut);
      assert Items(rows[..cut]) == Excess(ages, config.retained);
      RemoveAll(rows[..cut]);
    }

    /** `queue`, for the source this identifier digests. */
    method Queue(id: nat, s: Source, createdAt: int, now: int) returns (outcome: QueueOutcome, ghost ready: Bundles)
      requires Valid()
      modifies this`bundles, this`log
      ensures Valid() && old(log) <= log && AllMaintained(old(bundles), ready, now)
      ensures outcome.Queued? <==> id !in old(bundles)
      ensures outcome.Conflict? <==>
              && id in ready
              && !(ready[id].evidenceId == s.evidenceId && ready[id].version == s.version
                   && ready[id].contentSha256 == s.contentSha256)
      ensures outcome.Resealed? <==> !outcome.Conflict? && id in ready && ready[id].state.Expired?
      ensures outcome.AlreadyQueued? ==> id in ready && outcome.bundle == ready[id]
      ensures outcome.Queued? || outcome.Resealed? ==> FreshlyQueued(outcome.bundle, id, s, createdAt, config.ttlMs)
      ensures match outcome
              case Queued(b) =>
                var filled := ready[id := b];
                bundles == filled - Excess(TerminalAges(filled), config.retained) && id in bundles
              case Resealed(b) => bundles == ready[id := b]
              case _ => bundles == ready
    {
      Maintain(now);
      ready := bundles;
      var record := NewBundle(id, s, createdAt, config.ttlMs);
      if id in bundles {
        var existing := bundles[id];
        if !SameBundle(existing, s) {
          return Conflict, ready;
        }
        if !existing.state.Expired? {
          return AlreadyQueued(existing), ready;
        }
        Put(id, record, Reseal(id, s, createdAt));
        return Resealed(record), ready;
      }
      Put(id, record, Create(id, s, createdAt));
      Prune();
      return Queued(record), ready;
    }

    /** `claimSigned`, after authentication. A budget error leaves nothing claimed. */
    method Claim(limit: nat, tokens: seq<nat>, now: int)
      returns (outcome: ClaimOutcome, ghost ready: Bundles, ghost names: seq<nat>)
      requires Valid() && limit == |tokens| >= 1
      modifies this`bundles, this`log
      ensures Valid() && old(log) <= log && AllMaintained(old(bundles), ready, now)
      ensures Lists(names, PendingIds(ready))
      ensures outcome.TooLarge? <==> names != [] && TotalEstimate(ready, names[..1]) > config.claimBytes
      ensures outcome.TooLarge? ==> bundles == ready
      ensures outcome.Selected? ==>
                var picked := |outcome.bundles|;
                && PicksFirst(ready, names, picked, limit, config.claimBytes)
                && ClaimedFirst(ready, bundles, names, picked, tokens, now, config.leaseMs)
                && forall i :: 0 <= i < picked ==> names[i] in bundles && outcome.bundles[i] == bundles[names[i]]
    {
      Maintain(now);
      ready := bundles;
      RunInv(config, log, |log|);
      AtEnd(config, log);
      var pending := ReadSorted(PendingIds(bundles));
      names := pending;
      var selected: seq<Bundle> := [];
      var responseBytes: nat := 0;
      while |selected| < |pending| && |selected| < limit
        invariant Valid() && old(log) <= log && |selected| <= limit
        invariant Claiming(ready, bundles, pending, selected, responseBytes, config.claimBytes, tokens, now,
                           config.leaseMs)
      {
        ClaimNext(ready, bundles, pending, selected, responseBytes, config.claimBytes, tokens, now, config.leaseMs);
        var record := bundles[pending[|selected|]];
        var estimate := Estimate(record);
        if |selected| == 0 && estimate > config.claimBytes {
          return TooLarge, ready, names;
        }
        if responseBytes + estimate > config.claimBytes {
          break;
        }
        ghost var was := bundles;
        var claimed := PutClaimed(record, tokens[|selected|], now);
        ClaimStep(ready, was, bundles, pending, selected, responseBytes, config.claimBytes, tokens, now,
                  config.leaseMs);
        responseBytes := responseBytes + estimate;
        selected := selected + [claimed];
      }
      return Selected(selected), ready, names;
    }

    method PutClaimed(record: Bundle, token: nat, now: int) returns (claimed: Bundle)
      requires Valid() && record.id in bundles && bundles[record.id] == record && record.state.Pending?
      modifies this`bundles, this`log
      ensures Valid() && old(log) <= log && claimed == ClaimedFrom(record, token, now, config.leaseMs)
      ensures bundles == old(bundles)[record.id := claimed]
    {
      claimed := ClaimedFrom(record, token, now, config.leaseMs);
      Put(record.id, claimed, Op.Claim(record.id, token, now));
    }

    /** `acknowledgeSigned`, after authentication. */
    method Acknowledge(id: nat, token: nat, packageSha256: PackageDigest, now: int)
      returns (outcome: AckOutcome, ghost ready: Bundles)
      requires Valid()
      modifies this`bundles, this`log
      ensures Valid() && old(log) <= log && AllMaintained(old(bundles), ready, now)
      ensures outcome == Acknowledgement(ready, id, token, packageSha256, now)
      ensures outcome.Acknowledged? ==> id in ready && Received(ready[id], outcome.bundle, now)
      ensures outcome.NotFound? <==> id !in ready
      ensures outcome.AlreadyDelivered? <==> id in ready && ready[id].state.Delivered?
      ensures outcome.AlreadyDelivered? ==> outcome.bundle == ready[id]
      ensures outcome.ProofInvalid? <==>
              && id in ready && ready[id].state.Claimed?
              && (ready[id].claimTokenHash != Some(TokenSha256(token)) || ready[id].packageSha256 != packageSha256)
      ensures if outcome.Acknowledged? then
                var filled := ready[id := outcome.bundle];
                bundles == filled - Excess(TerminalAges(filled), config.retained)
              else bundles == ready
    {
      Maintain(now);
      ready := bundles;
      if id !in bundles {
        return NotFound, ready;
      }
      var record := bundles[id];
      if record.state.Delivered? {
        return AlreadyDelivered(record), ready;
      }
      if !record.state.Claimed? || record.claimExpiresAt.None? || record.claimExpiresAt.value <= now {
        return NotActive, ready;
      }
      if record.claimTokenHash != Some(TokenSha256(token)) || packageSha256 != record.packageSha256 {
        return ProofInvalid, ready;
      }
      var delivered := DeliveredFrom(record, now);
      Put(id, delivered, Deliver(id, token, packageSha256, now));
      Prune();
      return Acknowledged(delivered), ready;
    }
  }

  /** Only finished bundles went, and none that finished after one that stays: a delivered bundle finished when it was
      delivered, an expired one at its deadline. */
  ghost predicate OldestGone(before: Bundles, after: Bundles) {
    forall gone, stays ::
      gone in before && gone !in after && stays in after && Terminal(after[stays]) ==>
        && Terminal(before[gone])
        && (match before[gone].deliveredAt case Some(at) => at case None => before[gone].expiresAt)
           <= (match after[stays].deliveredAt case Some(at) => at case None => after[stays].expiresAt)
  }

  lemma OldestGo(bundles: Bundles, limit: nat)
    ensures OldestGone(bundles, bundles - Excess(TerminalAges(bundles), limit))
  {
    var ages := TerminalAges(bundles);
    forall gone, stays | gone in Excess(ages, limit) && stays in ages && stays !in Excess(ages, limit)
      ensures ages[gone] <= ages[stays]
    {
      ExcessOldest(ages, limit, gone, stays);
    }
  }

  /** An acknowledgement succeeds exactly on a running claim, with that claim's token and the digest of
      the package that was handed out. */
  function Acknowledgement(ready: Bundles, id: nat, token: nat, packageSha256: PackageDigest,
                           now: int): (outcome: AckOutcome)
    ensures outcome.Acknowledged? <==>
            && id in ready && ready[id].state.Claimed? && ready[id].claimExpiresAt.Some?
            && ready[id].claimExpiresAt.value > now
            && ready[id].claimTokenHash == Some(TokenSha256(token)) && ready[id].packageSha256 == packageSha256
  {
    if id !in ready then NotFound
    else if ready[id].state.Delivered? then AlreadyDelivered(ready[id])
    else if !ready[id].state.Claimed? || ready[id].claimExpiresAt.None?
      || ready[id].claimExpiresAt.value <= now then NotActive
    else if ready[id].claimTokenHash != Some(TokenSha256(token))
      || packageSha256 != ready[id].packageSha256 then ProofInvalid
    else Acknowledged(DeliveredFrom(ready[id], now))
  }

  function TerminalAges(bundles: Bundles): map<nat, int> {
    map id | id in bundles && Terminal(bundles[id]) ::
      if bundles[id].deliveredAt.Some? then bundles[id].deliveredAt.value else bundles[id].expiresAt
  }

  /** The claim loop with this much selected. */
  ghost predicate Claiming(ready: Bundles, bundles: Bundles, names: seq<nat>, selected: seq<Bundle>, responseBytes: nat,
                           claimBytes: nat, tokens: seq<nat>, now: int, leaseMs: nat) {
    && StateOk(ready) && Lists(names, PendingIds(ready)) && |selected| <= |names| && |selected| <= |tokens|
    && WithinBudget(ready, names, |selected|, responseBytes, claimBytes)
    && ClaimedFirst(ready, bundles, names, |selected|, tokens, now, leaseMs)
    && IsSelection(bundles, names, selected)
  }

  ghost predicate WithinBudget(ready: Bundles, names: seq<nat>, n: nat, responseBytes: nat, claimBytes: nat)
    requires n <= |names|
  {
    && responseBytes == TotalEstimate(ready, names[..n]) <= claimBytes
    && (n > 0 ==> TotalEstimate(ready, names[..1]) <= claimBytes)
  }

  ghost predicate IsSelection(bundles: Bundles, names: seq<nat>, selected: seq<Bundle>)
    requires |selected| <= |names|
  {
    forall k :: 0 <= k < |selected| ==> names[k] in bundles && selected[k] == bundles[names[k]]
  }

  lemma BudgetStep(ready: Bundles, names: seq<nat>, n: nat, responseBytes: nat, claimBytes: nat)
    requires n < |names| && names[n] in ready && WithinBudget(ready, names, n, responseBytes, claimBytes)
    ensures TotalEstimate(ready, names[..n + 1]) == responseBytes + Estimate(ready[names[n]])
    ensures responseBytes + Estimate(ready[names[n]]) <= claimBytes ==>
              WithinBudget(ready, names, n + 1, responseBytes + Estimate(ready[names[n]]), claimBytes)
  {
    assert names[..n + 1][..n] == names[..n];
  }

  lemma ClaimNext(ready: Bundles, bundles: Bundles, names: seq<nat>, selected: seq<Bundle>, responseBytes: nat,
                  claimBytes: nat, tokens: seq<nat>, now: int, leaseMs: nat)
    requires Claiming(ready, bundles, names, selected, responseBytes, claimBytes, tokens, now, leaseMs)
    requires |selected| < |names| && |selected| < |tokens|
    ensures var id := names[|selected|];
            && id in ready && id in bundles && bundles[id] == ready[id] && ready[id].state.Pending?
            && ready[id].id == id
            && TotalEstimate(ready, names[..|selected| + 1]) == responseBytes + Estimate(ready[id])
  {
    var n := |selected|;
    assert names[n] in names && names[n] !in names[..n];
    assert BundleInv(names[n], ready[names[n]]);
    BudgetStep(ready, names, n, responseBytes, claimBytes);
  }

  lemma ClaimedOneMore(ready: Bundles, was: Bundles, bundles: Bundles, names: seq<nat>, n: nat, tokens: seq<nat>,
                       now: int, leaseMs: nat)
    requires n < |names| && n < |tokens| && Ascending(names) && names[n] in ready
    requires ClaimedFirst(ready, was, names, n, tokens, now, leaseMs)
    requires bundles == was[names[n] := ClaimedFrom(ready[names[n]], tokens[n], now, leaseMs)]
    ensures ClaimedFirst(ready, bundles, names, n + 1, tokens, now, leaseMs)
  {
    assert names[..n + 1] == names[..n] + [names[n]];
  }

  lemma SelectedOneMore(was: Bundles, bundles: Bundles, names: seq<nat>, selected: seq<Bundle>, claimed: Bundle)
    requires |selected| < |names| && Ascending(names) && IsSelection(was, names, selected)
    requires bundles == was[names[|selected|] := claimed]
    ensures IsSelection(bundles, names, selected + [claimed])
  {
  }

  lemma ClaimStep(ready: Bundles, was: Bundles, bundles: Bundles, names: seq<nat>, selected: seq<Bundle>,
                  responseBytes: nat, claimBytes: nat, tokens: seq<nat>, now: int, leaseMs: nat)
    requires Claiming(ready, was, names, selected, responseBytes, claimBytes, tokens, now, leaseMs)
    requires |selected| < |names| && |selected| < |tokens| && names[|selected|] in ready
    requires responseBytes + Estimate(ready[names[|selected|]]) <= claimBytes
    requires bundles == was[names[|selected|] :=
                            ClaimedFrom(ready[names[|selected|]], tokens[|selected|], now, leaseMs)]
    ensures Claiming(ready, bundles, names, selected + [bundles[names[|selected|]]],
                     responseBytes + Estimate(ready[names[|selected|]]), claimBytes, tokens, now, leaseMs)
  {
    BudgetStep(ready, names, |selected|, responseBytes, claimBytes);
    ClaimedOneMore(ready, was, bundles, names, |selected|, tokens, now, leaseMs);
    SelectedOneMore(was, bundles, names, selected, bundles[names[|selected|]]);
  }

  // ----- whole runs -----

  /** A delivered bundle stays exactly as it is until it is removed. */
  lemma {:induction false} DeliveredIsFinal(c: Config, log: seq<Op>, i: nat, j: nat, id: nat)
    requires After(c, log).Some? && i <= j <= |log|
    requires id in At(c, log, i).bundles && At(c, log, i).bundles[id].state.Delivered?
    requires forall k :: i <= k < j ==> log[k] != Remove(id)
    ensures id in At(c, log, j).bundles && At(c, log, j).bundles[id] == At(c, log, i).bundles[id]
    decreases j - i
  {
    if i < j {
      DeliveredIsFinal(c, log, i, j - 1, id);
      AtNext(c, log, j - 1);
    }
  }

  /** Nothing still to be delivered is ever lost: between a state in which a bundle is live and a later
      one in which it is gone, it was delivered or it expired. */
  lemma {:induction false} LiveEndsDeliveredOrExpired(c: Config, log: seq<Op>, i: nat, j: nat, id: nat)
    requires After(c, log).Some? && i <= j <= |log|
    requires id in At(c, log, i).bundles && Live(At(c, log, i).bundles[id]) && id !in At(c, log, j).bundles
    ensures exists k :: i < k < j && id in At(c, log, k).bundles && Terminal(At(c, log, k).bundles[id])
    decreases j - i
  {
    assert i < j;
    AtNext(c, log, i);
    if Live(At(c, log, i + 1).bundles[id]) {
      LiveEndsDeliveredOrExpired(c, log, i + 1, j, id);
    }
  }

  /** The record is as the claim at index `k` left it. */
  ghost predicate ClaimedSince(c: Config, log: seq<Op>, k: nat, n: nat, id: nat)
    requires After(c, log).Some? && k < n <= |log|
  {
    && log[k].Claim? && log[k].id == id
    && id in At(c, log, n).bundles
    && forall m :: k < m <= n ==> id in At(c, log, m).bundles && At(c, log, m).bundles[id] == At(c, log, n).bundles[id]
  }

  /** Behind every claimed record stands one claim, and nothing has touched the record since. */
  lemma {:induction false} ClaimStanding(c: Config, log: seq<Op>, n: nat, id: nat) returns (k: nat)
    requires After(c, log).Some? && n <= |log|
    requires id in At(c, log, n).bundles && At(c, log, n).bundles[id].state.Claimed?
    ensures k < n && ClaimedSince(c, log, k, n, id)
    ensures At(c, log, n).bundles[id].claimTokenHash == Some(TokenSha256(log[k].token))
    ensures At(c, log, n).bundles[id].claimExpiresAt == Some(log[k].now + c.leaseMs)
    decreases n
  {
    assert n > 0;
    AtNext(c, log, n - 1);
    RunInv(c, log, n - 1);
    var before := At(c, log, n - 1).bundles;
    if log[n - 1].Claim? && log[n - 1].id == id {
      k := n - 1;
    } else {
      assert id in before && before[id] == At(c, log, n).bundles[id];
      k := ClaimStanding(c, log, n - 1, id);
    }
  }

  /** A delivery proves its claim: some earlier claim of this very bundle handed out its package under the
      token now shown, its lease is still running, the record has not been touched since, and the digest
      shown is that of the package handed out. */
  lemma DeliveryProvesClaim(c: Config, log: seq<Op>, i: nat)
    requires After(c, log).Some? && i < |log| && log[i].Deliver?
    ensures exists k: nat :: k < i && ClaimedSince(c, log, k, i, log[i].id)
                        && log[k].token == log[i].token && log[i].now < log[k].now + c.leaseMs
    ensures var b := At(c, log, i).bundles;
            && log[i].id in b && b[log[i].id].sealedPackage.Some?
            && PackageSha256(b[log[i].id].sealedPackage.value) == log[i].packageSha256
  {
    AtNext(c, log, i);
    RunInv(c, log, i);
    var k := ClaimStanding(c, log, i, log[i].id);
  }

  ghost predicate FreshTokens(log: seq<Op>) {
    forall i, j :: 0 <= i < j < |log| && log[i].Claim? && log[j].Claim? ==> log[i].token != log[j].token
  }

  /** With fresh tokens each of them delivers at most once. */
  lemma TokenDeliversOnce(c: Config, log: seq<Op>, i: nat, j: nat)
    requires After(c, log).Some? && FreshTokens(log)
    requires i < j < |log| && log[i].Deliver? && log[j].Deliver?
    ensures log[i].token != log[j].token
  {
    AtNext(c, log, i);
    AtNext(c, log, j);
    var k := ClaimStanding(c, log, i, log[i].id);
    var m := ClaimStanding(c, log, j, log[j].id);
    assert At(c, log, i + 1).bundles[log[i].id].state.Delivered?;
  }

  /** What a bundle is about never changes while it is stored, resealed or not. */
  lemma {:induction false} StaysAbout(c: Config, log: seq<Op>, i: nat, j: nat, id: nat)
    requires After(c, log).Some? && i <= j <= |log| && id in At(c, log, i).bundles
    requires forall k :: i <= k < j ==> log[k] != Remove(id)
    ensures id in At(c, log, j).bundles
    ensures var was, b := At(c, log, i).bundles[id], At(c, log, j).bundles[id];
            b.evidenceId == was.evidenceId && b.version == was.version && b.contentSha256 == was.contentSha256
    decreases j
  {
    if i < j {
      StaysAbout(c, log, i, j - 1, id);
      AtNext(c, log, j - 1);
    }
  }

  // ----- when bundles expire -----

  /** Every bundle's deadline is where queueing it put it. */
  lemma {:induction false} DeadlineStands(c: Config, log: seq<Op>, n: nat, id: nat)
    requires After(c, log).Some? && n <= |log| && id in At(c, log, n).bundles
    ensures At(c, log, n).bundles[id].expiresAt == At(c, log, n).bundles[id].createdAt + c.ttlMs
    decreases n
  {
    assert n > 0;
    AtNext(c, log, n - 1);
    RunInv(c, log, n - 1);
    if id in At(c, log, n - 1).bundles {
      DeadlineStands(c, log, n - 1, id);
    }
  }

  /** In every run, a bundle has expired only because maintenance came by at or past its deadline. */
  lemma {:induction false} ExpiredWasOverdue(c: Config, log: seq<Op>, n: nat, id: nat) returns (k: nat)
    requires After(c, log).Some? && n <= |log|
    requires id in At(c, log, n).bundles && At(c, log, n).bundles[id].state.Expired?
    ensures k < n && log[k].Maintain? && log[k].id == id
    ensures var b := At(c, log, n).bundles[id]; b.createdAt + c.ttlMs == b.expiresAt <= log[k].now
    decreases n
  {
    assert n > 0;
    AtNext(c, log, n - 1);
    DeadlineStands(c, log, n, id);
    var before := At(c, log, n - 1).bundles;
    if id in before && before[id].state.Expired? && before[id] == At(c, log, n).bundles[id] {
      k := ExpiredWasOverdue(c, log, n - 1, id);
    } else {
      k := n - 1;
    }
  }

  /** After any run, a claim that is over does not keep an unexpired bundle from the next: maintenance and a new claim
      are possible, and hand out the very same package under the new token. */
  lemma LapsedIsClaimable(c: Config, log: seq<Op>, id: nat, token: nat, now: int)
    requires After(c, log).Some?
    requires var b := After(c, log).value.bundles;
             && id in b && b[id].state.Claimed? && b[id].claimExpiresAt.Some?
             && b[id].claimExpiresAt.value <= now < b[id].expiresAt
    ensures var was := After(c, log).value.bundles[id];
            var more := After(c, log + [Op.Maintain(id, now), Op.Claim(id, token, now)]);
            && was.sealedPackage.Some? && more.Some? && id in more.value.bundles
            && HandedOut(was, more.value.bundles[id], token, now, c.leaseMs)
  {
    RunInv(c, log, |log|);
    AtEnd(c, log);
    var s := After(c, log).value;
    assert BundleInv(id, s.bundles[id]);
    RunMore(System(c, map[]), Step, log, Op.Maintain(id, now));
    var longer := log + [Op.Maintain(id, now)];
    RunMore(System(c, map[]), Step, longer, Op.Claim(id, token, now));
    assert log + [Op.Maintain(id, now), Op.Claim(id, token, now)] == longer + [Op.Claim(id, token, now)];
  }

  /** What the claims of a pass come to in bytes: each package, and an allowance for what goes around it. */
  lemma {:induction false} EstimateIs(bundles: Bundles, ids: seq<nat>)
    requires forall i :: 0 <= i < |ids| ==> ids[i] in bundles && bundles[ids[i]].sealedPackage.Some?
    ensures TotalEstimate(bundles, ids) == PackageBytes(bundles, ids) + 1024 * |ids|
  {
    if ids != [] {
      EstimateIs(bundles, ids[..|ids| - 1]);
    }
  }

  function PackageBytes(bundles: Bundles, ids: seq<nat>): nat
    requires forall i :: 0 <= i < |ids| ==> ids[i] in bundles && bundles[ids[i]].sealedPackage.Some?
  {
    if ids == [] then 0
    else PackageBytes(bundles, ids[..|ids| - 1]) + bundles[ids[|ids| - 1]].sealedPackage.value.bytes
  }
}
