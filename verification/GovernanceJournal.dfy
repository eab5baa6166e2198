/**
 The governance journal of src/evidence/evidenceTimeAttestationGovernanceStore.js for one tenant: an
 append-only, hash-chained list of revocations and supersessions, and what they say about an attestation.
 */
module GovernanceJournal {
  import opened Prelude
  import opened HashChain
  import opened TimeAttestations

  datatype Target =
    | AttestationRevoked(attestation: Attestation)
    | AttestationSuperseded(attestation: Attestation, replacement: Attestation)
    | ProviderRevoked(provider: nat)
    | KeyRevoked(provider: nat, key: nat)

  /** What a caller submits; the event's identifier digests exactly this. */
  datatype Ruling = Ruling(target: Target, effectiveAt: int, retroactive: bool, reasonCode: nat, reason: nat)

  datatype Entry = Entry(ruling: Ruling, recordedAt: int, recordedBy: nat)

  datatype RecordOutcome = Recorded | AlreadyRecorded | JournalFull

  datatype Status = Acceptable | Superseded | Revoked

  datatype Decision = Decision(operationallyAcceptable: bool, status: Status, reasons: seq<Ruling>)

  /** `eventApplies`. */
  predicate Applies(r: Ruling, a: Attestation) {
    match r.target
    case AttestationRevoked(revoked) => revoked == a
    case AttestationSuperseded(old_, _) => old_ == a
    case ProviderRevoked(provider) => provider == a.provider && (r.retroactive || a.timestamp >= r.effectiveAt)
    case KeyRevoked(provider, key) =>
      provider == a.provider && key == a.key && (r.retroactive || a.timestamp >= r.effectiveAt)
  }

  /** No ruling in effect speaks against the attestation. */
  ghost predicate AcceptableAt(events: seq<Event<Entry>>, a: Attestation, at: int) {
    forall i :: 0 <= i < |events| && events[i].body.ruling.effectiveAt <= at ==> !Applies(events[i].body.ruling, a)
  }

  function ReasonsFor(events: seq<Event<Entry>>, a: Attestation, at: int): (reasons: seq<Ruling>)
    ensures reasons == [] <==> AcceptableAt(events, a, at)
  {
    if events == [] then []
    else
      var rest := ReasonsFor(events[..|events| - 1], a, at);
      var ruling := events[|events| - 1].body.ruling;
      if ruling.effectiveAt <= at && Applies(ruling, a) then rest + [ruling] else rest
  }

  predicate SomeSupersedes(reasons: seq<Ruling>) {
    exists r :: r in reasons && r.target.AttestationSuperseded?
  }

  /** How an attestation stands under the rulings in effect. */
  function StatusAt(events: seq<Event<Entry>>, a: Attestation, at: int): Status {
    var reasons := ReasonsFor(events, a, at);
    if reasons == [] then Acceptable else if SomeSupersedes(reasons) then Superseded else Revoked
  }

  class Journal {
    const maxEvents: nat
    var events: seq<Event<Entry>>
    var sequence: nat
    var headHash: Option<Digest<Entry>>

    ghost predicate Valid()
      reads this
    {
      && IsFull(events, headHash) && sequence == |events| <= maxEvents
      && forall i, j :: 0 <= i < j < |events| ==> events[i].body.ruling != events[j].body.ruling
    }

    constructor (maxEvents: nat)
      ensures Valid() && events == [] && this.maxEvents == maxEvents
    {
      this.maxEvents := maxEvents;
      events, sequence, headHash := [], 0, None;
    }

    /** `record`: each ruling once, in order, as long as there is room. */
    method Record(ruling: Ruling, actor: nat, now: int) returns (outcome: RecordOutcome)
      requires Valid()
      modifies this
      ensures Valid() && old(events) <= events
      ensures outcome.AlreadyRecorded? <==> exists i :: 0 <= i < |old(events)| && old(events)[i].body.ruling == ruling
      ensures outcome.JournalFull? <==>
              |old(events)| == maxEvents && forall i :: 0 <= i < |old(events)| ==> old(events)[i].body.ruling != ruling
      ensures if outcome.Recorded?
              then |events| == |old(events)| + 1 && events[|events| - 1].body == Entry(ruling, now, actor)
              else events == old(events)
    {
      var i := 0;
      while i < |events|
        invariant i <= |events| && forall k :: 0 <= k < i ==> events[k].body.ruling != ruling
      {
        if events[i].body.ruling == ruling {
          return AlreadyRecorded;
        }
        i := i + 1;
      }
      if |events| >= maxEvents {
        return JournalFull;
      }
      var event := NewEvent(sequence + 1, Entry(ruling, now, actor), headHash);
      FullAfterAppend(events, headHash, event);
      events := events + [event];
      sequence := event.sequence;
      headHash := Some(event.hash);
      return Recorded;
    }

    /** `evaluate` for one attestation. */
    method Evaluate(a: Attestation, at: int) returns (decision: Decision)
      ensures decision.operationallyAcceptable <==> AcceptableAt(events, a, at)
      ensures decision.reasons == ReasonsFor(events, a, at)
      ensures decision.status == StatusAt(events, a, at)
      ensures decision.operationallyAcceptable <==> decision.status.Acceptable?
    {
      var reasons: seq<Ruling> := [];
      var superseded := false;
      var i := 0;
      while i < |events|
        invariant i <= |events|
        invariant reasons == ReasonsFor(events[..i], a, at)
        invariant superseded <==> SomeSupersedes(reasons)
      {
        assert events[..i + 1][..i] == events[..i];
        var ruling := events[i].body.ruling;
        if ruling.effectiveAt <= at && Applies(ruling, a) {
          OneMoreReason(reasons, ruling);
          reasons := reasons + [ruling];
          superseded := superseded || ruling.target.AttestationSuperseded?;
        }
        i := i + 1;
      }
      assert events[..i] == events;
      return Decision(reasons == [],
                      if reasons == [] then Acceptable else if superseded then Superseded else Revoked,
                      reasons);
    }

    /** `verifyIndex`. */
    method VerifyIndex() returns (valid: bool)
      ensures valid <==> IsFull(events, headHash) && sequence == |events|
    {
      var linked, previousHash, expectedSequence := CheckLinks(Origin(), events);
      valid := linked && sequence == expectedSequence - 1 && headHash == previousHash;
    }
  }

  lemma OneMoreReason(reasons: seq<Ruling>, r: Ruling)
    ensures SomeSupersedes(reasons + [r]) <==> SomeSupersedes(reasons) || r.target.AttestationSuperseded?
  {
    assert (reasons + [r])[|reasons|] == r;
    if SomeSupersedes(reasons) {
      var s :| s in reasons && s.target.AttestationSuperseded?;
      assert s in reasons + [r];
    }
  }

  // ----- what each kind of ruling does -----

  /** The journal after one more ruling. */
  ghost predicate Extends(events: seq<Event<Entry>>, events': seq<Event<Entry>>, ruling: Ruling) {
    events <= events' && |events'| == |events| + 1 && events'[|events|].body.ruling == ruling
  }

  /** A ruling that hits makes an attestation unacceptable, and superseded if it replaces it; one that does not
      leaves its standing as it was. */
  ghost predicate Hits(events: seq<Event<Entry>>, events': seq<Event<Entry>>, a: Attestation, at: int, hit: bool,
                       supersedes: bool)
  {
    && (AcceptableAt(events', a, at) <==> AcceptableAt(events, a, at) && !hit)
    && StatusAt(events', a, at) ==
       if !hit then StatusAt(events, a, at)
       else if supersedes || StatusAt(events, a, at).Superseded? then Superseded
       else Revoked
  }

  lemma RulingHits(events: seq<Event<Entry>>, events': seq<Event<Entry>>, ruling: Ruling, a: Attestation, at: int)
    requires Extends(events, events', ruling)
    ensures Hits(events, events', a, at, ruling.effectiveAt <= at && Applies(ruling, a),
                 ruling.target.AttestationSuperseded?)
  {
    assert events'[..|events'| - 1] == events;
    OneMoreReason(ReasonsFor(events, a, at), ruling);
  }

  /** Nothing speaks against an attestation in an empty journal. */
  lemma NothingRuled(a: Attestation, at: int)
    ensures AcceptableAt([], a, at) && StatusAt([], a, at) == Acceptable
  {
  }

  /** Revoking a key condemns what it signed from the effective date on, everything it ever signed when the
      ruling is retroactive, and nothing signed by any other key. */
  lemma KeyRevocation(events: seq<Event<Entry>>, events': seq<Event<Entry>>, provider: nat, key: nat,
                      effectiveAt: int, retroactive: bool, code: nat, reason: nat, a: Attestation, at: int)
    requires Extends(events, events', Ruling(KeyRevoked(provider, key), effectiveAt, retroactive, code, reason))
    ensures Hits(events, events', a, at,
                 && effectiveAt <= at && a.provider == provider && a.key == key
                 && (retroactive || effectiveAt <= a.timestamp), false)
  {
    RulingHits(events, events', events'[|events|].body.ruling, a, at);
  }

  /** Revoking a provider does the same for all its keys. */
  lemma ProviderRevocation(events: seq<Event<Entry>>, events': seq<Event<Entry>>, provider: nat,
                           effectiveAt: int, retroactive: bool, code: nat, reason: nat, a: Attestation, at: int)
    requires Extends(events, events', Ruling(ProviderRevoked(provider), effectiveAt, retroactive, code, reason))
    ensures Hits(events, events', a, at,
                 effectiveAt <= at && a.provider == provider && (retroactive || effectiveAt <= a.timestamp), false)
  {
    RulingHits(events, events', events'[|events|].body.ruling, a, at);
  }

  /** Revoking one attestation condemns just that one, whenever it was signed. */
  lemma AttestationRevocation(events: seq<Event<Entry>>, events': seq<Event<Entry>>, revoked: Attestation,
                              effectiveAt: int, retroactive: bool, code: nat, reason: nat, a: Attestation, at: int)
    requires Extends(events, events', Ruling(AttestationRevoked(revoked), effectiveAt, retroactive, code, reason))
    ensures Hits(events, events', a, at, effectiveAt <= at && a == revoked, false)
  {
    RulingHits(events, events', events'[|events|].body.ruling, a, at);
  }

  /** Superseding one attestation condemns just that one, not its replacement, and its status says so. */
  lemma Supersession(events: seq<Event<Entry>>, events': seq<Event<Entry>>, superseded: Attestation,
                     replacement: Attestation, effectiveAt: int, retroactive: bool, code: nat, reason: nat,
                     a: Attestation, at: int)
    requires Extends(events, events', Ruling(AttestationSuperseded(superseded, replacement), effectiveAt, retroactive,
                                             code, reason))
    ensures Hits(events, events', a, at, effectiveAt <= at && a == superseded, true)
  {
    RulingHits(events, events', events'[|events|].body.ruling, a, at);
  }

  /** A journal that revokes a key and then evaluates: the answer, for any attestation and any earlier rulings. */
  method RevokeKeyThenEvaluate(journal: Journal, provider: nat, key: nat, effectiveAt: int, retroactive: bool,
                               code: nat, reason: nat, actor: nat, now: int, a: Attestation, at: int)
    returns (recorded: RecordOutcome, before: Decision, decision: Decision)
    requires journal.Valid() && effectiveAt <= at
    modifies journal
    ensures journal.Valid()
    ensures !recorded.JournalFull? ==>
              (decision.operationallyAcceptable <==>
                 && before.operationallyAcceptable
                 && !(a.provider == provider && a.key == key && (retroactive || effectiveAt <= a.timestamp)))
  {
    before := journal.Evaluate(a, at);
    ghost var events := journal.events;
    var ruling := Ruling(KeyRevoked(provider, key), effectiveAt, retroactive, code, reason);
    recorded := journal.Record(ruling, actor, now);
    decision := journal.Evaluate(a, at);
    if recorded.Recorded? {
      KeyRevocation(events, journal.events, provider, key, effectiveAt, retroactive, code, reason, a, at);
    } else if recorded.AlreadyRecorded? {
      assert before.operationallyAcceptable ==> !Applies(ruling, a);
    }
  }

  /** Recording rulings or moving the evaluation forward never makes an unacceptable attestation acceptable. */
  lemma NeverRehabilitated(events: seq<Event<Entry>>, events': seq<Event<Entry>>, a: Attestation, at: int, at': int)
    requires events <= events' && at <= at' && AcceptableAt(events', a, at')
    ensures AcceptableAt(events, a, at)
  {
    forall i | 0 <= i < |events| && events[i].body.ruling.effectiveAt <= at ensures !Applies(events[i].body.ruling, a) {
      assert events'[i] == events[i];
    }
  }
}
