/**
 Replay protection of signed requests: the ledger of src/evidence/externalScanJobOutbox.js, whose records
 live for twice the clock skew, and the one of src/evidence/evidenceAssuranceBundleStore.js, whose files
 live for a day. A request authenticates while the clock is within the skew of its signing time; it is
 then checked against the ledger after waiting for the lock. Times are in milliseconds.
 */
module ReplayLedger {
  import opened Prelude

  const DAY_MS: nat := 86_400_000

  /** A request's identifier digests its signing time, among everything else that is signed. */
  datatype Request = Request(id: nat, signedAt: int)

  /** When a ledger forgets: the outbox prunes before it checks, and at the very millisecond a record
      reaches its age; the bundle store checks first, and prunes only what is older than its age. */
  datatype Policy = PruneThenCheck(life: nat) | CheckThenPrune(life: nat)

  function OutboxPolicy(skewMs: nat): Policy {
    PruneThenCheck(2 * skewMs)
  }

  function BundlePolicy(): Policy {
    CheckThenPrune(DAY_MS)
  }

  predicate Forgotten(p: Policy, acceptedAt: int, now: int) {
    if p.PruneThenCheck? then acceptedAt + p.life <= now else acceptedAt + p.life < now
  }

  /** The ledger: when each remembered request was accepted. */
  type Ledger = map<nat, int>

  function Pruned(p: Policy, ledger: Ledger, now: int): Ledger {
    map id | id in ledger && !Forgotten(p, ledger[id], now) :: ledger[id]
  }

  predicate Authentic(skewMs: nat, r: Request, seenAt: int) {
    r.signedAt - skewMs <= seenAt <= r.signedAt + skewMs
  }

  predicate Fresh(p: Policy, ledger: Ledger, r: Request, now: int) {
    r.id !in (if p.PruneThenCheck? then Pruned(p, ledger, now) else ledger)
  }

  /** The ledger after checking a request: one that is accepted is remembered. A replayed request is
      turned away before the bundle store gets to its pruning. */
  function Checked(p: Policy, ledger: Ledger, r: Request, now: int): Ledger {
    if p.PruneThenCheck? then
      if Fresh(p, ledger, r, now) then Pruned(p, ledger, now)[r.id := now] else Pruned(p, ledger, now)
    else
      if Fresh(p, ledger, r, now) then Pruned(p, ledger[r.id := now], now) else ledger
  }

  class Replays {
    const policy: Policy
    var records: Ledger

    constructor (policy: Policy, records: Ledger)
      ensures this.policy == policy && this.records == records
    {
      this.policy, this.records := policy, records;
    }

    method Prune(now: int)
      modifies this
      ensures records == Pruned(policy, old(records), now)
    {
      ghost var before := records;
      var rest := records.Keys;
      while rest != {}
        invariant rest <= before.Keys
        invariant forall id :: id in records <==> id in before && (id in rest || !Forgotten(policy, before[id], now))
        invariant forall id :: id in records ==> records[id] == before[id]
        decreases rest
      {
        var id :| id in rest;
        if Forgotten(policy, records[id], now) {
          records := records - {id};
        }
        rest := rest - {id};
      }
      assert records == Pruned(policy, before, now);
    }

    /** `consumeReplayLocked`, or `registerReplay` followed by maintenance. */
    method Consume(r: Request, now: int) returns (accepted: bool)
      modifies this
      ensures accepted <==> Fresh(policy, old(records), r, now)
      ensures records == Checked(policy, old(records), r, now)
    {
      if policy.PruneThenCheck? {
        Prune(now);
        accepted := r.id !in records;
        if accepted {
          records := records[r.id := now];
        }
      } else {
        accepted := r.id !in records;
        if accepted {
          records := records[r.id := now];
          Prune(now);
        }
      }
    }
  }

  // ----- whole runs -----

  /** A request that authenticated at `seenAt` and reached the ledger at `now`, or maintenance at `now`. */
  datatype Attempt = Signed(request: Request, seenAt: int, now: int) | Maintenance(now: int)

  function After(p: Policy, ledger: Ledger, run: seq<Attempt>): Ledger {
    if run == [] then ledger
    else
      var earlier := After(p, ledger, run[..|run| - 1]);
      match run[|run| - 1]
      case Signed(r, _, now) => Checked(p, earlier, r, now)
      case Maintenance(now) => Pruned(p, earlier, now)
  }

  /** Clocks do not go back, requests authenticate, and no wait for the lock exceeds `wait`. */
  ghost predicate Timely(skewMs: nat, wait: nat, run: seq<Attempt>) {
    && (forall i, j :: 0 <= i <= j < |run| ==> run[i].now <= run[j].now)
    && (forall i :: 0 <= i < |run| && run[i].Signed? ==>
          Authentic(skewMs, run[i].request, run[i].seenAt) && run[i].seenAt <= run[i].now <= run[i].seenAt + wait)
  }

  predicate AcceptedAt(p: Policy, ledger: Ledger, run: seq<Attempt>, i: nat)
    requires i < |run|
  {
    run[i].Signed? && Fresh(p, After(p, ledger, run[..i]), run[i].request, run[i].now)
  }

  /** An accepted request is remembered until its record is old enough to be forgotten. */
  lemma {:induction false} Remembered(p: Policy, ledger: Ledger, run: seq<Attempt>, i: nat, n: nat)
    requires i < n <= |run| && AcceptedAt(p, ledger, run, i)
    requires forall a, b :: 0 <= a <= b < |run| ==> run[a].now <= run[b].now
    requires !Forgotten(p, run[i].now, run[n - 1].now)
    ensures run[i].request.id in After(p, ledger, run[..n])
    ensures After(p, ledger, run[..n])[run[i].request.id] >= run[i].now
    decreases n
  {
    assert run[..n][..n - 1] == run[..n - 1];
    if n > i + 1 {
      assert run[n - 2].now <= run[n - 1].now;
      Remembered(p, ledger, run, i, n - 1);
    }
  }

  /** A second acceptance means the record of the first had been forgotten. */
  lemma AcceptedAgain(p: Policy, ledger: Ledger, run: seq<Attempt>, i: nat, j: nat)
    requires i < j < |run| && AcceptedAt(p, ledger, run, i) && AcceptedAt(p, ledger, run, j)
    requires forall a, b :: 0 <= a <= b < |run| ==> run[a].now <= run[b].now
    requires run[i].request == run[j].request
    ensures Forgotten(p, run[i].now, run[j].now)
  {
    if !Forgotten(p, run[i].now, run[j].now) {
      assert run[j - 1].now <= run[j].now;
      Remembered(p, ledger, run, i, j);
    }
  }

  /** Bundle store: as long as no wait for the lock brings twice the skew past a day, every signed request
      takes effect at most once. */
  lemma BundleRequestsOnce(skewMs: nat, wait: nat, ledger: Ledger, run: seq<Attempt>, i: nat, j: nat)
    requires Timely(skewMs, wait, run) && 2 * skewMs + wait <= DAY_MS
    requires i < j < |run| && AcceptedAt(BundlePolicy(), ledger, run, i) && run[j].Signed?
             && run[j].request == run[i].request
    ensures !AcceptedAt(BundlePolicy(), ledger, run, j)
  {
    if AcceptedAt(BundlePolicy(), ledger, run, j) {
      AcceptedAgain(BundlePolicy(), ledger, run, i, j);
    }
  }

  /** With the largest skew that can be configured, an hour, that leaves 22 hours for the wait. */
  lemma BundleRequestsOnceForAnySkew(skewMs: nat, wait: nat, ledger: Ledger, run: seq<Attempt>, i: nat, j: nat)
    requires Timely(skewMs, wait, run) && skewMs <= 3_600_000 && wait <= 79_200_000
    requires i < j < |run| && AcceptedAt(BundlePolicy(), ledger, run, i) && run[j].Signed?
             && run[j].request == run[i].request
    ensures !AcceptedAt(BundlePolicy(), ledger, run, j)
  {
    BundleRequestsOnce(skewMs, wait, ledger, run, i, j);
  }

  /** Scan outbox: the same for requests signed less than the full skew ahead of the accepting clock. */
  lemma OutboxRequestsOnce(skewMs: nat, wait: nat, ledger: Ledger, run: seq<Attempt>, i: nat, j: nat)
    requires Timely(skewMs, wait, run)
    requires i < j < |run| && AcceptedAt(OutboxPolicy(skewMs), ledger, run, i) && run[j].Signed?
             && run[j].request == run[i].request
    requires run[i].request.signedAt + wait < run[i].now + skewMs
    ensures !AcceptedAt(OutboxPolicy(skewMs), ledger, run, j)
  {
    if AcceptedAt(OutboxPolicy(skewMs), ledger, run, j) {
      AcceptedAgain(OutboxPolicy(skewMs), ledger, run, i, j);
    }
  }

  /** This run accepts the request of its attempt `i` a second time, at `j`. */
  ghost predicate AcceptsTwice(p: Policy, skewMs: nat, wait: nat, ledger: Ledger, run: seq<Attempt>, i: nat, j: nat) {
    && Timely(skewMs, wait, run) && i < j < |run|
    && run[i].Signed? && run[j].Signed? && run[j].request == run[i].request
    && AcceptedAt(p, ledger, run, i) && AcceptedAt(p, ledger, run, j)
  }

  /** Some way for the run to go on after attempt `i` accepts that request again. */
  ghost predicate Replayable(p: Policy, skewMs: nat, wait: nat, ledger: Ledger, run: seq<Attempt>, i: nat)
    requires i < |run|
  {
    exists longer: seq<Attempt>, j: nat ::
      run[..i + 1] <= longer && AcceptsTwice(p, skewMs, wait, ledger, longer, i, j)
  }

  /** Exactly when a scan-outbox request accepted in a run can be accepted again later: when it was signed so
      far ahead of the accepting clock that it still authenticates, lock wait included, once its record has
      been pruned. */
  lemma OutboxReplayIff(skewMs: nat, wait: nat, ledger: Ledger, run: seq<Attempt>, i: nat)
    requires Timely(skewMs, wait, run) && i < |run| && AcceptedAt(OutboxPolicy(skewMs), ledger, run, i)
    ensures Replayable(OutboxPolicy(skewMs), skewMs, wait, ledger, run, i) <==>
            run[i].now + skewMs <= run[i].request.signedAt + wait
  {
    if run[i].now + skewMs <= run[i].request.signedAt + wait {
      ReplayLater(skewMs, wait, ledger, run, i);
    }
    if Replayable(OutboxPolicy(skewMs), skewMs, wait, ledger, run, i) {
      var longer: seq<Attempt>, j: nat :|
        run[..i + 1] <= longer && AcceptsTwice(OutboxPolicy(skewMs), skewMs, wait, ledger, longer, i, j);
      assert longer[i] == run[..i + 1][i] == run[i];
      AcceptedAgain(OutboxPolicy(skewMs), ledger, longer, i, j);
    }
  }

  /** The replay: the same request again, at the very millisecond its record is pruned. */
  lemma ReplayLater(skewMs: nat, wait: nat, ledger: Ledger, run: seq<Attempt>, i: nat)
    requires Timely(skewMs, wait, run) && i < |run| && AcceptedAt(OutboxPolicy(skewMs), ledger, run, i)
    requires run[i].now + skewMs <= run[i].request.signedAt + wait
    ensures Replayable(OutboxPolicy(skewMs), skewMs, wait, ledger, run, i)
  {
    var r, p := run[i].request, OutboxPolicy(skewMs);
    var now := run[i].now + 2 * skewMs;
    var again := Signed(r, if now <= r.signedAt + skewMs then now else r.signedAt + skewMs, now);
    var earlier := run[..i + 1];
    var longer := earlier + [again];
    assert earlier[..i] == run[..i] && longer[..i] == run[..i] && longer[..i + 1] == earlier;
    assert After(p, ledger, earlier) == Checked(p, After(p, ledger, run[..i]), r, run[i].now);
    assert AcceptsTwice(p, skewMs, wait, ledger, longer, i, i + 1);
  }

  /** And exactly when a bundle request can be: when it still authenticates, lock wait included, more than a day
      after it was accepted, which no skew that can be configured allows without hours of waiting. */
  lemma BundleReplayIff(skewMs: nat, wait: nat, ledger: Ledger, run: seq<Attempt>, i: nat)
    requires Timely(skewMs, wait, run) && i < |run| && AcceptedAt(BundlePolicy(), ledger, run, i)
    ensures Replayable(BundlePolicy(), skewMs, wait, ledger, run, i) <==>
            run[i].now + 86_400_000 < run[i].request.signedAt + skewMs + wait
  {
    if run[i].now + 86_400_000 < run[i].request.signedAt + skewMs + wait {
      BundleReplayLater(skewMs, wait, ledger, run, i);
    }
    if Replayable(BundlePolicy(), skewMs, wait, ledger, run, i) {
      var longer: seq<Attempt>, j: nat :|
        run[..i + 1] <= longer && AcceptsTwice(BundlePolicy(), skewMs, wait, ledger, longer, i, j);
      assert longer[i] == run[..i + 1][i] == run[i];
      AcceptedAgain(BundlePolicy(), ledger, longer, i, j);
    }
  }

  lemma BundleReplayLater(skewMs: nat, wait: nat, ledger: Ledger, run: seq<Attempt>, i: nat)
    requires Timely(skewMs, wait, run) && i < |run| && AcceptedAt(BundlePolicy(), ledger, run, i)
    requires run[i].now + 86_400_000 < run[i].request.signedAt + skewMs + wait
    ensures Replayable(BundlePolicy(), skewMs, wait, ledger, run, i)
  {
    var r, p := run[i].request, BundlePolicy();
    var now := run[i].now + 86_400_001;
    var again := Signed(r, if now <= r.signedAt + skewMs then now else r.signedAt + skewMs, now);
    var earlier := run[..i + 1];
    var pruned := earlier + [Maintenance(now)];
    var longer := pruned + [again];
    assert earlier[..i] == run[..i] && longer[..i] == run[..i];
    assert longer[..i + 2] == pruned && pruned[..i + 1] == earlier;
    assert After(p, ledger, earlier) == Checked(p, After(p, ledger, run[..i]), r, run[i].now);
    assert After(p, ledger, pruned) == Pruned(p, After(p, ledger, earlier), now);
    assert AcceptsTwice(p, skewMs, wait, ledger, longer, i, i + 2);
  }

  /** So with no waiting at all, a request signed exactly the skew ahead of the clock is accepted twice. */
  lemma OutboxReplayExample()
    ensures exists run: seq<Attempt> ::
              Timely(300_000, 0, run) && |run| == 2 && run[0].Signed? && run[1].Signed?
                && run[0].request == run[1].request
                          && AcceptedAt(OutboxPolicy(300_000), map[], run, 0)
                          && AcceptedAt(OutboxPolicy(300_000), map[], run, 1)
  {
    var r := Request(7, 300_000);
    var run := [Signed(r, 0, 0), Signed(r, 600_000, 600_000)];
    assert run[..0] == [] && run[..1] == [run[0]];
    assert run[..1][..0] == [];
    assert After(OutboxPolicy(300_000), map[], run[..1]) == Checked(OutboxPolicy(300_000), map[], r, 0);
  }
}
