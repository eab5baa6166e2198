/**
 Dual-control export approval for one tenant, src/evidence/evidenceAssuranceExportApprovalStore.js:
 requests that need a quorum of other people's approvals and may be used once.

 A step is one file written or removed, under the check the code makes right before it, or the
 approved operation running, failing or being cut off by a crash.
 */
module ExportApproval {
  import opened Prelude
  import opened Retention
  import opened Runs

  datatype State = Pending | Approved | Rejected | Cancelled | Expired | Consumed

  datatype Disclosure = Disclosure(evidenceId: nat, version: nat, contentSha256: nat, recipientId: nat, purpose: nat)

  /** What a caller expects of the approved export; absent fields are not compared. */
  datatype Expected = Expected(evidenceId: Option<nat>, version: Option<nat>, contentSha256: Option<nat>,
                               recipientId: Option<nat>, purpose: Option<nat>)

  datatype Approval = Approval(actor: nat, approvedAt: int)

  datatype Request = Request(
    id: nat, disclosure: Disclosure, requestedBy: nat, state: State, requiredApprovals: nat, approvals: seq<Approval>,
    createdAt: int, expiresAt: int, rejectedAt: Option<int>, rejectedBy: Option<nat>,
    cancelledAt: Option<int>, cancelledBy: Option<nat>, consumedAt: Option<int>, consumedBy: Option<nat>,
    bundleId: Option<nat>)

  type Requests = map<nat, Request>

  datatype Config = Config(quorum: nat, ttlMs: nat, retained: nat)

  ghost predicate ValidConfig(c: Config) {
    c.quorum >= 1 && c.retained >= 1
  }

  datatype Outcome = Done(request: Request) | NotFound | NotActionable | SelfApproval | NotRequester

  datatype RequestOutcome = Created(request: Request) | AlreadyRequested(request: Request) | Conflict

  /** How the approved operation ends: with a bundle or without, by failing, or in a crash before the
      consumption is written. */
  datatype Operation = Succeeds(bundleId: Option<nat>) | Fails | CrashesAfter

  datatype ExecuteOutcome = Executed(request: Request) | ApprovalRequired | OperationFailed | Crashed

  predicate Terminal(r: Request) {
    r.state.Rejected? || r.state.Cancelled? || r.state.Expired? || r.state.Consumed?
  }

  predicate ApprovedBy(r: Request, actor: nat) {
    exists i :: 0 <= i < |r.approvals| && r.approvals[i].actor == actor
  }

  function Approvers(r: Request): set<nat> {
    set a | a in r.approvals :: a.actor
  }

  // ----- how a record changes -----

  function NewRequest(c: Config, id: nat, disclosure: Disclosure, actor: nat, now: int): Request {
    Request(id, disclosure, actor, Pending, c.quorum, [], now, now + c.ttlMs, None, None, None, None, None, None, None)
  }

  predicate Overdue(r: Request, now: int) {
    r.state.Pending? && r.expiresAt <= now
  }

  function AfterExpiry(r: Request, now: int): Request {
    if Overdue(r, now) then r.(state := Expired) else r
  }

  function WithApproval(r: Request, actor: nat, now: int): Request {
    if ApprovedBy(r, actor) then r
    else
      var approvals := r.approvals + [Approval(actor, now)];
      r.(approvals := approvals, state := if |approvals| >= r.requiredApprovals then Approved else r.state)
  }

  function RejectedBy(r: Request, actor: nat, now: int): Request {
    r.(state := Rejected, rejectedAt := Some(now), rejectedBy := Some(actor))
  }

  function CancelledBy(r: Request, actor: nat, now: int): Request {
    r.(state := Cancelled, cancelledAt := Some(now), cancelledBy := Some(actor))
  }

  function ConsumedBy(r: Request, actor: nat, bundleId: Option<nat>, now: int): Request {
    r.(state := Consumed, consumedAt := Some(now), consumedBy := Some(actor), bundleId := bundleId)
  }

  const ANYTHING := Expected(None, None, None, None, None)

  /** `assertExpected`. */
  predicate MeetsExpectation(disclosure: Disclosure, e: Expected) {
    && (e.evidenceId.None? || e.evidenceId.value == disclosure.evidenceId)
    && (e.version.None? || e.version.value == disclosure.version)
    && (e.contentSha256.None? || e.contentSha256.value == disclosure.contentSha256)
    && (e.recipientId.None? || e.recipientId.value == disclosure.recipientId)
    && (e.purpose.None? || e.purpose.value == disclosure.purpose)
  }

  // ----- runs -----

  /** The operation of a request is running, under the store's lock. */
  datatype Doing = Idle | Executing(id: nat)

  datatype System = System(config: Config, requests: Requests, doing: Doing)

  datatype Op =
    | Create(id: nat, disclosure: Disclosure, actor: nat, now: int)
    | Expire(id: nat, now: int)
    | Approve(id: nat, actor: nat, now: int)
    | Reject(id: nat, actor: nat, now: int)
    | Cancel(id: nat, actor: nat, now: int)
    | Execute(id: nat, expected: Expected)
    | Consume(actor: nat, bundleId: Option<nat>, now: int)
    | Fail
    | Crash
    | Remove(id: nat)

  ghost function Step(s: System, op: Op): Option<System> {
    match op
    case Create(id, disclosure, actor, now) =>
      if s.doing.Idle? && id !in s.requests then Saved(s, id, NewRequest(s.config, id, disclosure, actor, now))
        else None
    case Expire(id, now) =>
      if Stands(s, id) && Overdue(s.requests[id], now) then Saved(s, id, AfterExpiry(s.requests[id], now)) else None
    case Approve(id, actor, now) =>
      if Stands(s, id) && s.requests[id].state.Pending? && actor != s.requests[id].requestedBy
      then Saved(s, id, WithApproval(s.requests[id], actor, now)) else None
    case Reject(id, actor, now) =>
      if Stands(s, id) && s.requests[id].state.Pending? then Saved(s, id, RejectedBy(s.requests[id], actor, now))
        else None
    case Cancel(id, actor, now) =>
      if Stands(s, id) && s.requests[id].state.Pending? && actor == s.requests[id].requestedBy
      then Saved(s, id, CancelledBy(s.requests[id], actor, now)) else None
    case Execute(id, expected) =>
      if Stands(s, id) && s.requests[id].state.Approved? && MeetsExpectation(s.requests[id].disclosure, expected)
      then Some(s.(doing := Executing(id))) else None
    case Consume(actor, bundleId, now) =>
      if s.doing.Executing? && s.doing.id in s.requests
      then Saved(s, s.doing.id, ConsumedBy(s.requests[s.doing.id], actor, bundleId, now)) else None
    case Fail => if s.doing.Executing? then Some(s.(doing := Idle)) else None
    case Crash => Some(s.(doing := Idle))
    case Remove(id) =>
      if Stands(s, id) && Terminal(s.requests[id]) then Some(s.(requests := s.requests - {id})) else None
  }

  predicate Stands(s: System, id: nat) {
    s.doing.Idle? && id in s.requests
  }

  function Saved(s: System, id: nat, r: Request): Option<System> {
    Some(System(s.config, s.requests[id := r], Idle))
  }

  ghost function After(c: Config, log: seq<Op>): Option<System> {
    Run(System(c, map[], Idle), Step, log)
  }

  /** The state `n` steps into a run. */
  ghost function At(c: Config, log: seq<Op>, n: nat): System
    requires After(c, log).Some? && n <= |log|
  {
    PrefixRuns(System(c, map[], Idle), Step, log, n);
    After(c, log[..n]).value
  }

  lemma AtNext(c: Config, log: seq<Op>, i: nat)
    requires After(c, log).Some? && i < |log|
    ensures Step(At(c, log, i), log[i]) == Some(At(c, log, i + 1))
  {
    StepAt(System(c, map[], Idle), Step, log, i);
  }

  lemma AfterMore(c: Config, log: seq<Op>, op: Op, s: System)
    requires After(c, log).Some? && Step(After(c, log).value, op) == Some(s)
    ensures After(c, log + [op]) == Some(s)
  {
    RunMore(System(c, map[], Idle), Step, log, op);
  }

  /** The requests whose operation was run, in order. */
  function Executions(log: seq<Op>): seq<nat> {
    if log == [] then []
    else Executions(log[..|log| - 1]) + if log[|log| - 1].Execute? then [log[|log| - 1].id] else []
  }

  lemma ExecutionsMore(log: seq<Op>, op: Op)
    ensures Executions(log + [op]) == Executions(log) + if op.Execute? then [op.id] else []
  {
    assert (log + [op])[..|log|] == log;
  }

  // ----- the store -----

  ghost predicate ExpiredUpTo(before: Requests, after: Requests, done: seq<nat>, now: int) {
    && after.Keys == before.Keys
    && forall id :: id in before ==> after[id] == if id in done then AfterExpiry(before[id], now) else before[id]
  }

  lemma ExpireStep(before: Requests, was: Requests, after: Requests, names: seq<nat>, i: nat, now: int)
    requires Ascending(names) && i < |names| && names[i] in before
    requires ExpiredUpTo(before, was, names[..i], now)
    requires after == was[names[i] := AfterExpiry(was[names[i]], now)]
    ensures ExpiredUpTo(before, after, names[..i + 1], now)
  {
    assert names[i] !in names[..i];
    assert names[..i + 1] == names[..i] + [names[i]];
  }

  // ----- what the changes mean -----

  /** What no change touches: what is to be disclosed, at whose request, under which rule, until when. */
  predicate SameRequest(was: Request, r: Request) {
    && r.id == was.id && r.disclosure == was.disclosure && r.requestedBy == was.requestedBy
    && r.requiredApprovals == was.requiredApprovals && r.createdAt == was.createdAt && r.expiresAt == was.expiresAt
  }

  predicate SameEndings(was: Request, r: Request) {
    && r.rejectedAt == was.rejectedAt && r.rejectedBy == was.rejectedBy && r.cancelledAt == was.cancelledAt
    && r.cancelledBy == was.cancelledBy && r.consumedAt == was.consumedAt && r.consumedBy == was.consumedBy
    && r.bundleId == was.bundleId
  }

  predicate FreshlyRequested(c: Config, r: Request, id: nat, disclosure: Disclosure, actor: nat, now: int) {
    && r.id == id && r.disclosure == disclosure && r.requestedBy == actor && r.state.Pending?
    && r.requiredApprovals == c.quorum && r.approvals == [] && r.createdAt == now && r.expiresAt == now + c.ttlMs
    && r.rejectedAt.None? && r.cancelledAt.None? && r.consumedAt.None? && r.bundleId.None?
  }

  /** Only a pending request past its deadline expires; any other is left alone. */
  predicate ExpiredAs(was: Request, r: Request, now: int) {
    if was.state.Pending? && was.expiresAt <= now then
      SameRequest(was, r) && SameEndings(was, r) && r.approvals == was.approvals && r.state.Expired?
    else
      r == was
  }

  /** One approval more, unless this person has approved already; with the last one needed the request is approved. */
  ghost predicate ApprovedOnce(was: Request, r: Request, actor: nat, now: int) {
    if exists i :: 0 <= i < |was.approvals| && was.approvals[i].actor == actor then r == was
    else
      && SameRequest(was, r) && SameEndings(was, r) && r.approvals == was.approvals + [Approval(actor, now)]
      && r.state == if |was.approvals| + 1 >= was.requiredApprovals then Approved else was.state
  }

  predicate TurnedDown(was: Request, r: Request, actor: nat, now: int) {
    && SameRequest(was, r) && r.approvals == was.approvals && r.state.Rejected?
    && r.rejectedAt == Some(now) && r.rejectedBy == Some(actor)
    && r.cancelledAt == was.cancelledAt && r.consumedAt == was.consumedAt
  }

  predicate Withdrawn(was: Request, r: Request, actor: nat, now: int) {
    && SameRequest(was, r) && r.approvals == was.approvals && r.state.Cancelled?
    && r.cancelledAt == Some(now) && r.cancelledBy == Some(actor)
    && r.rejectedAt == was.rejectedAt && r.consumedAt == was.consumedAt
  }

  predicate UsedUp(was: Request, r: Request, actor: nat, bundleId: Option<nat>, now: int) {
    && SameRequest(was, r) && r.approvals == was.approvals && r.state.Consumed?
    && r.consumedAt == Some(now) && r.consumedBy == Some(actor) && r.bundleId == bundleId
    && r.rejectedAt == was.rejectedAt && r.cancelledAt == was.cancelledAt
  }

  ghost predicate AllExpired(before: Requests, after: Requests, now: int) {
    after.Keys == before.Keys && forall id :: id in before ==> ExpiredAs(before[id], after[id], now)
  }

  function TerminalAges(requests: Requests): map<nat, int> {
    map id | id in requests && Terminal(requests[id]) :: TerminalTime(requests[id])
  }

  function TerminalTime(r: Request): int {
    if r.consumedAt.Some? then r.consumedAt.value
    else if r.rejectedAt.Some? then r.rejectedAt.value
    else if r.cancelledAt.Some? then r.cancelledAt.value
    else r.expiresAt
  }

  /** Only finished requests went, and none that was consumed, rejected or cancelled, or ran out, after one that
      stays. */
  ghost predicate OldestGone(before: Requests, after: Requests) {
    forall gone, stays ::
      gone in before && gone !in after && stays in after && Terminal(after[stays]) ==>
        && Terminal(before[gone])
        && forall a, b :: EndedAt(before[gone], a) && EndedAt(after[stays], b) ==> a <= b
  }

  /** When a finished request ended. */
  predicate EndedAt(r: Request, at: int) {
    at == if r.consumedAt.Some? then r.consumedAt.value else if r.rejectedAt.Some? then r.rejectedAt.value
          else if r.cancelledAt.Some? then r.cancelledAt.value else r.expiresAt
  }

  lemma OldestGo(requests: Requests, limit: nat)
    ensures OldestGone(requests, requests - Excess(TerminalAges(requests), limit))
  {
    var ages := TerminalAges(requests);
    forall gone, stays | gone in Excess(ages, limit) && stays in ages && stays !in Excess(ages, limit)
      ensures ages[gone] <= ages[stays]
    {
      ExcessOldest(ages, limit, gone, stays);
    }
  }

  class Store {
    const config: Config
    var requests: Requests
    /** Everything that ever happened to the directory. */
    ghost var log: seq<Op>

    ghost predicate Doing(doing: Doing)
      reads this
    {
      ValidConfig(config) && After(config, log) == Some(System(config, requests, doing))
    }

    ghost predicate Valid()
      reads this
    {
      Doing(Idle)
    }

    /** Opens the store over what an earlier run, crashed or not, left behind. */
    constructor (config: Config, requests: Requests, ghost log: seq<Op>)
      requires ValidConfig(config) && After(config, log) == Some(System(config, requests, Idle))
      ensures Valid() && this.config == config && this.requests == requests && this.log == log
    {
      this.config, this.requests, this.log := config, requests, log;
    }

    ghost method Record(op: Op, doing: Doing, next: Doing)
      requires ValidConfig(config) && After(config, log).Some?
      requires Step(After(config, log).value, op) == Some(System(config, requests, next))
      modifies this`log
      ensures Doing(next) && log == old(log) + [op]
      ensures Executions(log) == Executions(old(log)) + if op.Execute? then [op.id] else []
    {
      AfterMore(config, log, op, System(config, requests, next));
      ExecutionsMore(log, op);
      log := log + [op];
    }

    /** `writeExclusive` and `replaceRecord`. */
    method Put(id: nat, r: Request, ghost op: Op, ghost doing: Doing)
      requires Doing(doing) && !op.Execute?
      requires Step(System(config, requests, doing), op) == Some(System(config, requests[id := r], Idle))
      modifies this`requests, this`log
      ensures Valid() && log == old(log) + [op] && requests == old(requests)[id := r]
      ensures Executions(log) == Executions(old(log))
    {
      requests := requests[id := r];
      Record(op, doing, Idle);
    }

    method RemoveAll(rows: seq<nat>)
      requires Valid()
      requires forall i :: 0 <= i < |rows| ==> rows[i] in requests && Terminal(requests[rows[i]])
      requires forall i, j :: 0 <= i < j < |rows| ==> rows[i] != rows[j]
      modifies this`requests, this`log
      ensures Valid() && old(log) <= log && Executions(log) == Executions(old(log))
      ensures requests == old(requests) - Items(rows)
    {
      ghost var before := requests;
      var i := 0;
      while i < |rows|
        invariant Valid() && old(log) <= log && Executions(log) == Executions(old(log))
        invariant i <= |rows| && requests == before - Items(rows[..i])
      {
        assert rows[i] !in rows[..i];
        WithoutNext(before, rows, i);
        requests := requests - {rows[i]};
        Record(Remove(rows[i]), Idle, Idle);
        i := i + 1;
      }
      assert rows[..i] == rows;
    }

    method ExpireOne(id: nat, now: int)
      requires Valid() && id in requests
      modifies this`requests, this`log
      ensures Valid() && old(log) <= log && Executions(log) == Executions(old(log))
      ensures requests == old(requests)[id := AfterExpiry(old(requests)[id], now)]
    {
      if Overdue(requests[id], now) {
        Put(id, AfterExpiry(requests[id], now), Op.Expire(id, now), Idle);
      }
    }

    /** `expireLocked`: only pending requests expire. */
    method Expire(now: int)
      requires Valid()
      modifies this`requests, this`log
      ensures Valid() && old(log) <= log && Executions(log) == Executions(old(log))
      ensures AllExpired(old(requests), requests, now)
    {
      ghost var before := requests;
      var names := ReadSorted(requests.Keys);
      var i := 0;
      while i < |names|
        invariant Valid() && old(log) <= log && Executions(log) == Executions(old(log))
        invariant i <= |names| && ExpiredUpTo(before, requests, names[..i], now)
      {
        assert names[i] in names;
        ghost var was := requests;
        ExpireOne(names[i], now);
        ExpireStep(before, was, requests, names, i, now);
        i := i + 1;
      }
      assert names[..i] == names;
    }

    /** `pruneLocked`: the oldest finished requests over the limit go. */
    method Prune()
      requires Valid()
      modifies this`requests, this`log
      ensures Valid() && old(log) <= log && Executions(log) == Executions(old(log))
      ensures requests == old(requests) - Excess(TerminalAges(old(requests)), config.retained)
      ensures OldestGone(old(requests), requests)
    {
      OldestGo(requests, config.retained);
      var ages := TerminalAges(requests);
      var rows := SortOldestFirst(ages);
      var cut := Cut(rows, config.retained);
      ExcessRows(ages, rows, config.retained);
      FirstRows(ages, rows, cut);
      assert Items(rows[..cut]) == Excess(ages, config.retained);
      RemoveAll(rows[..cut]);
    }

    /** `request`, under the identifier that digests the export and the requester. */
    method RequestExport(id: nat, disclosure: Disclosure, actor: nat, now: int)
      returns (outcome: RequestOutcome, ghost ready: Requests)
      requires Valid()
      modifies this`requests, this`log
      ensures Valid() && old(log) <= log && Executions(log) == Executions(old(log))
      ensures AllExpired(old(requests), ready, now)
      ensures outcome.Created? <==> id !in old(requests)
      ensures outcome.AlreadyRequested? <==>
                id in ready && ready[id].disclosure == disclosure && ready[id].requestedBy == actor
      ensures outcome.AlreadyRequested? ==> outcome.request == ready[id]
      ensures if outcome.Created? then
                var filled := ready[id := outcome.request];
                && FreshlyRequested(config, outcome.request, id, disclosure, actor, now)
                && requests == filled - Excess(TerminalAges(filled), config.retained) && id in requests
              else requests == ready
    {
      Expire(now);
      ready := requests;
      if id in requests {
        var existing := requests[id];
        if existing.disclosure != disclosure || existing.requestedBy != actor {
          return Conflict, ready;
        }
        return AlreadyRequested(existing), ready;
      }
      var record := NewRequest(config, id, disclosure, actor, now);
      Put(id, record, Create(id, disclosure, actor, now), Idle);
      Prune();
      return Created(record), ready;
    }

    /** `approve`: once per person, never by the requester; the last approval needed completes the quorum. */
    method Approve(id: nat, actor: nat, now: int) returns (outcome: Outcome, ghost ready: Requests)
      requires Valid()
      modifies this`requests, this`log
      ensures Valid() && old(log) <= log && Executions(log) == Executions(old(log))
      ensures AllExpired(old(requests), ready, now)
      ensures outcome.Done? <==> id in ready && ready[id].state.Pending? && actor != ready[id].requestedBy
      ensures outcome.SelfApproval? <==> id in ready && ready[id].state.Pending? && actor == ready[id].requestedBy
      ensures outcome.NotFound? <==> id !in ready
      ensures outcome.Done? ==> ApprovedOnce(ready[id], outcome.request, actor, now)
      ensures requests == if outcome.Done? then ready[id := outcome.request] else ready
    {
      Expire(now);
      ready := requests;
      if id !in requests {
        return NotFound, ready;
      }
      var record := requests[id];
      if !record.state.Pending? {
        return NotActionable, ready;
      }
      if actor == record.requestedBy {
        return SelfApproval, ready;
      }
      var next := WithApproval(record, actor, now);
      Put(id, next, Op.Approve(id, actor, now), Idle);
      return Done(next), ready;
    }

    method Reject(id: nat, actor: nat, now: int) returns (outcome: Outcome, ghost ready: Requests)
      requires Valid()
      modifies this`requests, this`log
      ensures Valid() && old(log) <= log && Executions(log) == Executions(old(log))
      ensures AllExpired(old(requests), ready, now)
      ensures outcome.Done? <==> id in ready && ready[id].state.Pending?
      ensures outcome.NotFound? <==> id !in ready
      ensures outcome.Done? ==> TurnedDown(ready[id], outcome.request, actor, now)
      ensures requests == if outcome.Done? then ready[id := outcome.request] else ready
    {
      Expire(now);
      ready := requests;
      if id !in requests {
        return NotFound, ready;
      }
      var record := requests[id];
      if !record.state.Pending? {
        return NotActionable, ready;
      }
      var next := RejectedBy(record, actor, now);
      Put(id, next, Op.Reject(id, actor, now), Idle);
      return Done(next), ready;
    }

    method Cancel(id: nat, actor: nat, now: int) returns (outcome: Outcome, ghost ready: Requests)
      requires Valid()
      modifies this`requests, this`log
      ensures Valid() && old(log) <= log && Executions(log) == Executions(old(log))
      ensures AllExpired(old(requests), ready, now)
      ensures outcome.Done? <==> id in ready && ready[id].state.Pending? && actor == ready[id].requestedBy
      ensures outcome.NotRequester? <==> id in ready && ready[id].state.Pending? && actor != ready[id].requestedBy
      ensures outcome.NotFound? <==> id !in ready
      ensures outcome.Done? ==> Withdrawn(ready[id], outcome.request, actor, now)
      ensures requests == if outcome.Done? then ready[id := outcome.request] else ready
    {
      Expire(now);
      ready := requests;
      if id !in requests {
        return NotFound, ready;
      }
      var record := requests[id];
      if !record.state.Pending? {
        return NotActionable, ready;
      }
      if actor != record.requestedBy {
        return NotRequester, ready;
      }
      var next := CancelledBy(record, actor, now);
      Put(id, next, Op.Cancel(id, actor, now), Idle);
      return Done(next), ready;
    }

    /** `executeApproved`: runs the operation for an approved request that is the one expected, and then
        consumes it. A crash in between leaves the request approved, with its operation already run. */
    method ExecuteApproved(id: nat, expected: Expected, actor: nat, operation: Operation, now: int)
      returns (outcome: ExecuteOutcome, ghost ready: Requests)
      requires Valid()
      modifies this`requests, this`log
      ensures Valid() && old(log) <= log && AllExpired(old(requests), ready, now)
      ensures outcome.ApprovalRequired? <==>
                !(&& id in ready && ready[id].state.Approved?
                  && (expected.evidenceId.Some? ==> ready[id].disclosure.evidenceId == expected.evidenceId.value)
                  && (expected.version.Some? ==> ready[id].disclosure.version == expected.version.value)
                  && (expected.contentSha256.Some? ==>
                      ready[id].disclosure.contentSha256 == expected.contentSha256.value)
                  && (expected.recipientId.Some? ==> ready[id].disclosure.recipientId == expected.recipientId.value)
                  && (expected.purpose.Some? ==> ready[id].disclosure.purpose == expected.purpose.value))
      ensures Executions(log) == Executions(old(log)) + if outcome.ApprovalRequired? then [] else [id]
      ensures outcome.Executed? <==> !outcome.ApprovalRequired? && operation.Succeeds?
      ensures outcome.Crashed? <==> !outcome.ApprovalRequired? && operation.CrashesAfter?
      ensures outcome.Executed? ==> UsedUp(ready[id], outcome.request, actor, operation.bundleId, now)
      ensures requests == if outcome.Executed? then ready[id := outcome.request] else ready
    {
      Expire(now);
      ready := requests;
      if id !in requests || !requests[id].state.Approved? || !MeetsExpectation(requests[id].disclosure, expected) {
        return ApprovalRequired, ready;
      }
      outcome := RunOperation(id, expected, actor, operation, now);
    }

    method RunOperation(id: nat, expected: Expected, actor: nat, operation: Operation, now: int)
      returns (outcome: ExecuteOutcome)
      requires Valid() && id in requests && requests[id].state.Approved?
      requires MeetsExpectation(requests[id].disclosure, expected)
      modifies this`requests, this`log
      ensures Valid() && old(log) <= log && Executions(log) == Executions(old(log)) + [id]
      ensures match operation
              case Succeeds(bundleId) => outcome == Executed(ConsumedBy(old(requests)[id], actor, bundleId, now))
              case Fails => outcome == OperationFailed
              case CrashesAfter => outcome == Crashed
      ensures requests == if outcome.Executed? then old(requests)[id := outcome.request] else old(requests)
    {
      Record(Execute(id, expected), Idle, Executing(id));
      match operation {
        case Succeeds(bundleId) =>
          var next := ConsumedBy(requests[id], actor, bundleId, now);
          Put(id, next, Consume(actor, bundleId, now), Executing(id));
          outcome := Executed(next);
        case Fails =>
          Record(Op.Fail, Executing(id), Idle);
          outcome := OperationFailed;
        case CrashesAfter =>
          Record(Op.Crash, Executing(id), Idle);
          outcome := Crashed;
      }
    }
  }

  // ----- what the checks add up to -----

  /** Approvals are by distinct people other than the requester, and approved or consumed is exactly
      having as many of them as required. */
  ghost predicate RequestInv(c: Config, id: nat, r: Request) {
    && r.id == id && r.requiredApprovals == c.quorum >= 1 && r.expiresAt == r.createdAt + c.ttlMs
    && (forall i, j :: 0 <= i < j < |r.approvals| ==> r.approvals[i].actor != r.approvals[j].actor)
    && !ApprovedBy(r, r.requestedBy)
    && |r.approvals| <= r.requiredApprovals
    && (|r.approvals| == r.requiredApprovals <==> r.state.Approved? || r.state.Consumed?)
    && (r.rejectedAt.Some? <==> r.state.Rejected?)
    && (r.cancelledAt.Some? <==> r.state.Cancelled?) && (r.state.Cancelled? ==> r.cancelledBy == Some(r.requestedBy))
    && (r.consumedAt.Some? <==> r.state.Consumed?)
  }

  ghost predicate SystemInv(s: System) {
    && ValidConfig(s.config)
    && (forall id :: id in s.requests ==> RequestInv(s.config, id, s.requests[id]))
    && (s.doing.Executing? ==> s.doing.id in s.requests && s.requests[s.doing.id].state.Approved?)
  }

  lemma ApprovalKeepsInv(c: Config, id: nat, r: Request, actor: nat, now: int)
    requires RequestInv(c, id, r) && r.state.Pending? && actor != r.requestedBy
    ensures RequestInv(c, id, WithApproval(r, actor, now))
  {
  }

  lemma StepKeepsInv(s: System, op: Op)
    requires SystemInv(s) && Step(s, op).Some?
    ensures SystemInv(Step(s, op).value)
  {
    if op.Approve? {
      ApprovalKeepsInv(s.config, op.id, s.requests[op.id], op.actor, op.now);
    }
  }

  lemma {:induction false} RunInv(c: Config, log: seq<Op>, n: nat)
    requires ValidConfig(c) && After(c, log).Some? && n <= |log|
    ensures SystemInv(At(c, log, n)) && At(c, log, n).config == c
  {
    if n > 0 {
      RunInv(c, log, n - 1);
      AtNext(c, log, n - 1);
      StepKeepsInv(At(c, log, n - 1), log[n - 1]);
    }
  }

  /** In every state of every run, wherever a crash strikes, a request is approved or consumed exactly when
      as many different people as the quorum approved it, none of them the requester, and then nobody
      rejected or cancelled it. */
  lemma ApprovedMeansDualControl(c: Config, log: seq<Op>, n: nat, id: nat)
    requires ValidConfig(c) && After(c, log).Some? && n <= |log| && id in At(c, log, n).requests
    ensures var r := At(c, log, n).requests[id];
            && r.requestedBy !in Approvers(r)
            && (r.state.Approved? || r.state.Consumed? <==> |Approvers(r)| == c.quorum)
            && (r.state.Approved? || r.state.Consumed? ==> r.rejectedAt.None? && r.cancelledAt.None?)
  {
    RunInv(c, log, n);
    var r := At(c, log, n).requests[id];
    ApproverCount(r.approvals);
    assert Approvers(r) == set a | a in r.approvals :: a.actor;
  }

  lemma {:induction false} ApproverCount(approvals: seq<Approval>)
    requires forall i, j :: 0 <= i < j < |approvals| ==> approvals[i].actor != approvals[j].actor
    ensures |set a | a in approvals :: a.actor| == |approvals|
    decreases |approvals|
  {
    if approvals == [] {
      assert (set a | a in approvals :: a.actor) == {};
    } else {
      var init, last := approvals[..|approvals| - 1], approvals[|approvals| - 1];
      ApproverCount(init);
      assert (set a | a in approvals :: a.actor) == (set a | a in init :: a.actor) + {last.actor};
    }
  }

  /** A finished request stays exactly as it is until it is removed: a consumed one cannot be used again,
      nor a rejected or expired one approved. */
  lemma {:induction false} TerminalIsFinal(c: Config, log: seq<Op>, i: nat, j: nat, id: nat)
    requires ValidConfig(c) && After(c, log).Some? && i <= j <= |log|
    requires id in At(c, log, i).requests && Terminal(At(c, log, i).requests[id])
    requires forall k :: i <= k < j ==> log[k] != Remove(id)
    ensures id in At(c, log, j).requests && At(c, log, j).requests[id] == At(c, log, i).requests[id]
    decreases j - i
  {
    if i < j {
      TerminalIsFinal(c, log, i, j - 1, id);
      AtNext(c, log, j - 1);
      RunInv(c, log, j - 1);
    }
  }

  /** A request that is pending or approved is never removed without having been finished first. */
  lemma {:induction false} LiveNeverPruned(c: Config, log: seq<Op>, i: nat, j: nat, id: nat)
    requires After(c, log).Some? && i <= j <= |log|
    requires id in At(c, log, i).requests && !Terminal(At(c, log, i).requests[id]) && id !in At(c, log, j).requests
    ensures exists k :: i < k < j && id in At(c, log, k).requests && Terminal(At(c, log, k).requests[id])
    decreases j - i
  {
    assert i < j;
    AtNext(c, log, i);
    if !Terminal(At(c, log, i + 1).requests[id]) {
      LiveNeverPruned(c, log, i + 1, j, id);
    }
  }

  lemma ConsumedFrom(s: System, op: Op, id: nat)
    requires SystemInv(s) && Step(s, op).Some?
    requires var requests := Step(s, op).value.requests; id in requests && requests[id].state.Consumed?
    ensures id in s.requests
    ensures var r := Step(s, op).value.requests[id];
            if s.requests[id].state.Consumed? then r == s.requests[id]
            else op.Consume? && s.doing == Executing(id) && UsedUp(s.requests[id], r, op.actor, op.bundleId, op.now)
  {
  }

  /** What is consumed stood approved, by the same people and for the same disclosure, when its operation
      was run right before. */
  lemma {:induction false} ConsumedWasApproved(c: Config, log: seq<Op>, n: nat, id: nat)
    requires ValidConfig(c) && After(c, log).Some? && n <= |log|
    requires id in At(c, log, n).requests && At(c, log, n).requests[id].state.Consumed?
    ensures exists k :: && 0 <= k && k + 1 < n && RanAt(log, k, id) && log[k + 1].Consume?
                        && id in At(c, log, k).requests && At(c, log, k).requests[id].state.Approved?
                        && UsedUp(At(c, log, k).requests[id], At(c, log, n).requests[id], log[k + 1].actor,
                                  log[k + 1].bundleId, log[k + 1].now)
    decreases n
  {
    if n > 0 {
      AtNext(c, log, n - 1);
      var before := At(c, log, n - 1);
      RunInv(c, log, n - 1);
      ConsumedFrom(before, log[n - 1], id);
      if id in before.requests && before.requests[id].state.Consumed? {
        ConsumedWasApproved(c, log, n - 1, id);
      } else {
        ExecutingSince(c, log, n - 1, id);
      }
    }
  }

  lemma ExecutingSince(c: Config, log: seq<Op>, n: nat, id: nat)
    requires After(c, log).Some? && n <= |log| && At(c, log, n).doing == Executing(id)
    ensures n > 0 && RanAt(log, n - 1, id) && At(c, log, n).requests == At(c, log, n - 1).requests
    ensures id in At(c, log, n - 1).requests && At(c, log, n - 1).requests[id].state.Approved?
  {
    if n > 0 {
      AtNext(c, log, n - 1);
    }
  }

  // ----- what an operation was asked to disclose -----

  /** The expectation that names all of a disclosure. */
  function Exactly(d: Disclosure): Expected {
    Expected(Some(d.evidenceId), Some(d.version), Some(d.contentSha256), Some(d.recipientId), Some(d.purpose))
  }

  /** A full expectation is met by just the disclosure it names, and an empty one by any. */
  lemma ExpectationIff(approved: Disclosure, asked: Disclosure)
    ensures MeetsExpectation(approved, Exactly(asked)) <==> approved == asked
    ensures MeetsExpectation(approved, ANYTHING)
  {
  }

  /** In every run, whatever ran had the full quorum of people other than the requester behind it, for the evidence,
      version, digest, recipient and purpose it was asked for. */
  lemma RanAsAsked(c: Config, log: seq<Op>, i: nat, id: nat)
    requires ValidConfig(c) && After(c, log).Some? && RanAt(log, i, id)
    ensures id in At(c, log, i).requests
    ensures var r, e := At(c, log, i).requests[id], log[i].expected;
            && r.state.Approved? && |Approvers(r)| == c.quorum && r.requestedBy !in Approvers(r)
            && (e.evidenceId.Some? ==> r.disclosure.evidenceId == e.evidenceId.value)
            && (e.version.Some? ==> r.disclosure.version == e.version.value)
            && (e.contentSha256.Some? ==> r.disclosure.contentSha256 == e.contentSha256.value)
            && (e.recipientId.Some? ==> r.disclosure.recipientId == e.recipientId.value)
            && (e.purpose.Some? ==> r.disclosure.purpose == e.purpose.value)
  {
    AtNext(c, log, i);
    ApprovedMeansDualControl(c, log, i, id);
  }

  // ----- how often an operation runs -----

  ghost predicate RanAt(log: seq<Op>, i: int, id: nat) {
    0 <= i < |log| && log[i].Execute? && log[i].id == id
  }

  /** The attempt at this index failed or was cut off by a crash. */
  ghost predicate Interrupted(log: seq<Op>, i: nat) {
    i + 1 < |log| && (log[i + 1].Fail? || log[i + 1].Crash?)
  }

  /** Both attempts are at one and the same request, not at one requested anew under the same identifier. */
  ghost predicate SameLife(log: seq<Op>, i: nat, j: nat, id: nat) {
    forall k :: i < k < j && k < |log| ==> !(log[k].Create? && log[k].id == id)
  }

  lemma {:induction false} ConsumedOrGone(c: Config, log: seq<Op>, i: nat, j: nat, id: nat)
    requires ValidConfig(c) && After(c, log).Some? && i <= j <= |log|
    requires id in At(c, log, i).requests && At(c, log, i).requests[id].state.Consumed?
    requires forall k :: i <= k < j ==> !(log[k].Create? && log[k].id == id)
    ensures id in At(c, log, j).requests ==> At(c, log, j).requests[id].state.Consumed?
    decreases j - i
  {
    if i < j {
      ConsumedOrGone(c, log, i, j - 1, id);
      AtNext(c, log, j - 1);
      RunInv(c, log, j - 1);
    }
  }

  /** Of all attempts that ran at a request, each but the last failed or was cut off. */
  lemma AllButLastInterrupted(c: Config, log: seq<Op>, i: nat, j: nat, id: nat)
    requires ValidConfig(c) && After(c, log).Some?
    requires i < j && RanAt(log, i, id) && RanAt(log, j, id) && SameLife(log, i, j, id)
    ensures Interrupted(log, i)
  {
    AtNext(c, log, i);
    AtNext(c, log, i + 1);
    AtNext(c, log, j);
    if !Interrupted(log, i) {
      assert log[i + 1].Consume?;
      ConsumedOrGone(c, log, i + 2, j, id);
    }
  }

  /** A request's operation is run more than once exactly when an attempt before the last one that ran
      failed or was cut off by a crash. */
  lemma ExecutedMoreThanOnceIff(c: Config, log: seq<Op>, id: nat)
    requires ValidConfig(c) && After(c, log).Some?
    ensures (exists i, j :: i < j && RanAt(log, i, id) && RanAt(log, j, id) && SameLife(log, i, j, id))
            <==>
            (exists i, j ::
             i < j && RanAt(log, i, id) && RanAt(log, j, id) && SameLife(log, i, j, id) && Interrupted(log, i))
  {
    if i, j :| i < j && RanAt(log, i, id) && RanAt(log, j, id) && SameLife(log, i, j, id) {
      AllButLastInterrupted(c, log, i, j, id);
    }
  }

  /** Every attempt from `i` on whose outcome lies before `n` was interrupted. */
  ghost predicate AllInterrupted(log: seq<Op>, i: nat, n: nat, id: nat) {
    forall k: nat :: i <= k && k + 1 < n && RanAt(log, k, id) ==> Interrupted(log, k)
  }

  /** After an attempt the request is approved as long as every attempt was interrupted, and otherwise it is
      consumed or gone. */
  lemma {:induction false} ApprovedWhileInterrupted(c: Config, log: seq<Op>, i: nat, n: nat, id: nat)
    requires ValidConfig(c) && After(c, log).Some? && i < n <= |log| && RanAt(log, i, id) && SameLife(log, i, n, id)
    ensures var requests := At(c, log, n).requests;
            && (id in requests && requests[id].state.Approved? <==> AllInterrupted(log, i, n, id))
            && (id in requests ==> requests[id].state.Approved? || requests[id].state.Consumed?)
    decreases n
  {
    AtNext(c, log, n - 1);
    if n > i + 1 {
      ApprovedWhileInterrupted(c, log, i, n - 1, id);
      var doing := At(c, log, n - 1).doing;
      if doing == Executing(id) {
        ExecutingSince(c, log, n - 1, id);
      }
      if RanAt(log, n - 2, id) {
        AtNext(c, log, n - 2);
        assert doing == Executing(id);
      }
      assert AllInterrupted(log, i, n, id) <==>
             AllInterrupted(log, i, n - 1, id) && (RanAt(log, n - 2, id) ==> Interrupted(log, n - 2));
    }
  }

  /** Once its operation has run, it can be run again if and only if every attempt so far failed or was cut
      off by a crash; one attempt that was neither ends it. */
  lemma RunsAgainIff(c: Config, log: seq<Op>, i: nat, id: nat)
    requires ValidConfig(c) && After(c, log).Some? && RanAt(log, i, id) && SameLife(log, i, |log|, id)
    requires After(c, log).value.doing.Idle?
    ensures Step(After(c, log).value, Execute(id, ANYTHING)).Some? <==>
            forall k: nat :: i <= k && RanAt(log, k, id) ==> Interrupted(log, k)
  {
    ApprovedWhileInterrupted(c, log, i, |log|, id);
    assert log[..|log|] == log;
    AtNext(c, log, |log| - 1);
    assert !RanAt(log, |log| - 1, id);
  }

  method ApprovedRequest() returns (store: Store)
    ensures fresh(store) && store.Valid() && Executions(store.log) == []
    ensures 7 in store.requests && store.requests[7].state.Approved?
  {
    store := new Store(Config(2, 300_000, 100), map[], []);
    var requested, ready := store.RequestExport(7, Disclosure(1, 1, 1, 1, 1), 0, 0);
    var one, ready1 := store.Approve(7, 1, 1);
    assert store.requests[7].approvals == [Approval(1, 1)];
    var two, ready2 := store.Approve(7, 2, 2);
  }

  /** And it can happen: a crash right after the operation, a second process over what is left, and the
      operation runs again for the same approvals. */
  method OperationRunsTwice() returns (first: Store, second: Store)
    ensures first.Valid() && second.Valid() && first.log <= second.log
    ensures Executions(first.log) == [7] && Executions(second.log) == [7, 7]
    ensures 7 in second.requests && second.requests[7].state.Consumed?
  {
    first := ApprovedRequest();
    var cut, ready := first.ExecuteApproved(7, ANYTHING, 3, CrashesAfter, 3);
    second := new Store(first.config, first.requests, first.log);
    var again, ready' := second.ExecuteApproved(7, ANYTHING, 3, Succeeds(None), 4);
  }
}
