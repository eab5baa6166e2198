/**
 The key policy over time attestations, src/evidence/evidenceTimeAuthorityPolicyStore.js: which recorded
 attestations were made with a key trusted at that time, and whether those alone reach the quorum.
 */
module AuthorityPolicy {
  import opened Prelude
  import opened TimeAttestations
  import V = Preservation

  datatype KeyRef = KeyRef(provider: nat, key: nat)

  datatype KeyPolicy = KeyPolicy(validFrom: Option<int>, validUntil: Option<int>, allowedPolicyIds: Option<set<nat>>)

  type Authorities = map<KeyRef, KeyPolicy>

  datatype Decision = Trusted | UnknownAuthorityKey | KeyNotYetValid | KeyExpiredAtAttestation | PolicyNotAllowed

  datatype PolicyResult =
    | TooManyAttestations
    | Evaluated(trusted: nat, rejected: nat, providers: set<nat>, keys: set<KeyRef>, quorumSatisfied: bool)

  /** `evaluatePolicy`. */
  function EvaluatePolicy(authorities: Authorities, a: Attestation): (decision: Decision)
    ensures decision.Trusted? <==> InForce(authorities, a)
  {
    var ref := KeyRef(a.provider, a.key);
    if ref !in authorities then UnknownAuthorityKey
    else
      var authority := authorities[ref];
      if authority.validFrom.Some? && a.timestamp < authority.validFrom.value then KeyNotYetValid
      else if authority.validUntil.Some? && a.timestamp > authority.validUntil.value then KeyExpiredAtAttestation
      else if authority.allowedPolicyIds.Some? && a.policyId !in authority.allowedPolicyIds.value then PolicyNotAllowed
      else Trusted
  }

  /** The attestation's key was in force at its timestamp and may be used under its policy. */
  ghost predicate InForce(authorities: Authorities, a: Attestation) {
    exists ref :: ref in authorities && ref.provider == a.provider && ref.key == a.key &&
      (match authorities[ref].validFrom case Some(from) => from <= a.timestamp case None => true) &&
      (match authorities[ref].validUntil case Some(until) => a.timestamp <= until case None => true) &&
      (match authorities[ref].allowedPolicyIds case Some(allowed) => a.policyId in allowed case None => true)
  }

  function TrustedOf(authorities: Authorities, listing: seq<Attestation>): (r: seq<Attestation>)
    ensures forall a :: a in r <==> a in listing && EvaluatePolicy(authorities, a).Trusted?
  {
    if listing == [] then []
    else
      var rest := TrustedOf(authorities, listing[..|listing| - 1]);
      var last := listing[|listing| - 1];
      if EvaluatePolicy(authorities, last).Trusted? then rest + [last] else rest
  }

  function KeysOf(all: seq<Attestation>): set<KeyRef> {
    set a | a in all :: KeyRef(a.provider, a.key)
  }

  lemma OneMoreKey(all: seq<Attestation>, a: Attestation)
    ensures KeysOf(all + [a]) == KeysOf(all) + {KeyRef(a.provider, a.key)}
  {
    forall ref ensures ref in KeysOf(all + [a]) <==> ref in KeysOf(all) + {KeyRef(a.provider, a.key)} {
      assert (all + [a])[|all|] == a;
    }
  }

  /** `verifyArchives` for one archive, over the newest `limit` of its records: it refuses to judge when
      the limit hides some of them. */
  method VerifyPolicy(authorities: Authorities, all: seq<Attestation>, archive: V.ArchiveId, limit: nat,
                      minimumProviders: nat)
    returns (result: PolicyResult)
    ensures result.TooManyAttestations? <==> |OfArchive(all, archive)| > limit
    ensures result.Evaluated? ==>
              var trusted := TrustedOf(authorities, Listing(all, archive, limit));
              && result.trusted == |trusted| && result.trusted + result.rejected == |OfArchive(all, archive)|
              && result.providers == Providers(trusted) && result.keys == KeysOf(trusted)
              && (result.quorumSatisfied <==> |Providers(trusted)| >= minimumProviders)
  {
    var attestationCount := |OfArchive(all, archive)|;
    var listing := Listing(all, archive, limit);
    if attestationCount > |listing| {
      return TooManyAttestations;
    }
    var trusted, providers, keys := 0, {}, {};
    ghost var chosen: seq<Attestation> := [];
    var i := 0;
    while i < |listing|
      invariant i <= |listing| && chosen == TrustedOf(authorities, listing[..i])
      invariant trusted == |chosen| <= i
      invariant providers == Providers(chosen) && keys == KeysOf(chosen)
    {
      TrustedStep(authorities, listing, i);
      if EvaluatePolicy(authorities, listing[i]).Trusted? {
        OneMoreProvider(chosen, listing[i]);
        OneMoreKey(chosen, listing[i]);
        chosen := chosen + [listing[i]];
        trusted := trusted + 1;
        providers := providers + {listing[i].provider};
        keys := keys + {KeyRef(listing[i].provider, listing[i].key)};
      }
      i := i + 1;
    }
    assert listing[..i] == listing;
    return Evaluated(trusted, |listing| - trusted, providers, keys, |providers| >= minimumProviders);
  }

  lemma TrustedStep(authorities: Authorities, listing: seq<Attestation>, i: nat)
    requires i < |listing|
    ensures TrustedOf(authorities, listing[..i + 1]) ==
            TrustedOf(authorities, listing[..i]) +
              if EvaluatePolicy(authorities, listing[i]).Trusted? then [listing[i]] else []
  {
    assert listing[..i + 1][..i] == listing[..i];
  }

  /** `record` behind the policy: an untrusted attestation never reaches the store, so everything recorded
      under the policy stays trusted by it. */
  method RecordTrusted(store: AttestationStore, authorities: Authorities, a: Attestation, now: int)
    returns (decision: Decision, outcome: Option<RecordOutcome>)
    requires store.Valid() && store.clock <= now
    modifies store
    ensures store.Valid() && decision == EvaluatePolicy(authorities, a)
    ensures outcome.Some? <==> InForce(authorities, a)
    ensures !(outcome.Some? && outcome.value.Accepted?) ==> store.records == old(store.records)
    ensures old(AllInForce(authorities, Bodies(store.records))) ==> AllInForce(authorities, Bodies(store.records))
  {
    decision := EvaluatePolicy(authorities, a);
    if !decision.Trusted? {
      return decision, None;
    }
    var recorded := store.Record(a, now);
    return decision, Some(recorded);
  }

  ghost predicate AllInForce(authorities: Authorities, all: seq<Attestation>) {
    forall a :: a in all ==> InForce(authorities, a)
  }
}
