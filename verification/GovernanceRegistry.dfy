/**
 The quorum tower of src/evidence/evidenceTimeAttestationGovernanceRegistry.js: cryptographic quorum,
 refined by key policy, refined by the governance journal, and the disposition gate on top, which looks
 up each version's preservation receipt and the operational quorum behind it.
 */
module GovernanceRegistry {
  import opened Prelude
  import opened HashChain
  import T = TimeAttestations
  import P = AuthorityPolicy
  import G = GovernanceJournal
  import V = Preservation

  const LISTING_LIMIT: nat := 5000

  ghost function AcceptableOf(authorities: P.Authorities, events: seq<Event<G.Entry>>, listing: seq<T.Attestation>,
                              at: int): (r: seq<T.Attestation>)
    ensures forall a ::
              a in r <==> a in listing && P.EvaluatePolicy(authorities, a).Trusted? && G.AcceptableAt(events, a, at)
  {
    if listing == [] then []
    else
      var rest := AcceptableOf(authorities, events, listing[..|listing| - 1], at);
      var last := listing[|listing| - 1];
      if P.EvaluatePolicy(authorities, last).Trusted? && G.AcceptableAt(events, last, at) then rest + [last] else rest
  }

  ghost predicate CryptographicQuorum(all: seq<T.Attestation>, archive: V.ArchiveId, minimum: nat) {
    |T.Providers(T.OfArchive(all, archive))| >= minimum
  }

  ghost predicate PolicyQuorum(all: seq<T.Attestation>, archive: V.ArchiveId, limit: nat, authorities: P.Authorities,
                               minimum: nat)
  {
    |T.Providers(P.TrustedOf(authorities, T.Listing(all, archive, limit)))| >= minimum
  }

  ghost predicate OperationalQuorum(all: seq<T.Attestation>, archive: V.ArchiveId, authorities: P.Authorities,
                                    events: seq<Event<G.Entry>>, at: int, minimum: nat)
  {
    |T.Providers(AcceptableOf(authorities, events, T.Listing(all, archive, LISTING_LIMIT), at))| >= minimum
  }

  // ----- the tower -----

  /** Operational quorum implies cryptographic quorum, whatever was recorded, trusted or ruled; it implies
      policy quorum whenever the policy check does not refuse for want of listing room. */
  lemma QuorumTower(all: seq<T.Attestation>, archive: V.ArchiveId, limit: nat, authorities: P.Authorities,
                    events: seq<Event<G.Entry>>, at: int, minimum: nat)
    ensures OperationalQuorum(all, archive, authorities, events, at, minimum) ==>
              CryptographicQuorum(all, archive, minimum)
    ensures PolicyQuorum(all, archive, limit, authorities, minimum) ==> CryptographicQuorum(all, archive, minimum)
    ensures |T.OfArchive(all, archive)| <= limit
            && OperationalQuorum(all, archive, authorities, events, at, minimum) ==>
              PolicyQuorum(all, archive, limit, authorities, minimum)
  {
    var own := T.OfArchive(all, archive);
    var operational := AcceptableOf(authorities, events, T.Listing(all, archive, LISTING_LIMIT), at);
    var trusted := P.TrustedOf(authorities, T.Listing(all, archive, limit));
    T.FewerProviders(operational, own);
    T.FewerProviders(trusted, own);
    if |own| <= limit {
      T.FewerProviders(operational, trusted);
    }
  }

  /** Where everything was recorded under the present policy, the policy changes nothing; the two quorums
      differ only once keys are taken away or narrowed later. */
  lemma PolicyNeutralWhenRecordedUnderIt(all: seq<T.Attestation>, archive: V.ArchiveId, limit: nat,
                                         authorities: P.Authorities, minimum: nat)
    requires P.AllInForce(authorities, all) && |T.OfArchive(all, archive)| <= limit
    ensures PolicyQuorum(all, archive, limit, authorities, minimum) <==> CryptographicQuorum(all, archive, minimum)
  {
    var own := T.OfArchive(all, archive);
    var trusted := P.TrustedOf(authorities, T.Listing(all, archive, limit));
    T.FewerProviders(trusted, own);
    T.FewerProviders(own, trusted);
  }

  /** For the records of an archive as they are, an operational quorum once lost is lost for good: no
      later ruling and no later evaluation brings it back. */
  lemma LostQuorumStaysLost(all: seq<T.Attestation>, archive: V.ArchiveId, authorities: P.Authorities,
                            events: seq<Event<G.Entry>>, events': seq<Event<G.Entry>>, at: int, at': int, minimum: nat)
    requires events <= events' && at <= at'
    requires OperationalQuorum(all, archive, authorities, events', at', minimum)
    ensures OperationalQuorum(all, archive, authorities, events, at, minimum)
  {
    var listing := T.Listing(all, archive, LISTING_LIMIT);
    var later := AcceptableOf(authorities, events', listing, at');
    var earlier := AcceptableOf(authorities, events, listing, at);
    forall a | a in later ensures a in earlier {
      G.NeverRehabilitated(events, events', a, at, at');
    }
    T.FewerProviders(later, earlier);
  }

  /** What a revoked key signed from the effective date on counts no more, and nothing else stops counting. */
  lemma KeyRevocationCounts(authorities: P.Authorities, events: seq<Event<G.Entry>>, events': seq<Event<G.Entry>>,
                            provider: nat, key: nat, effectiveAt: int, retroactive: bool, code: nat, reason: nat,
                            listing: seq<T.Attestation>, at: int)
    requires G.Extends(events, events', G.Ruling(G.KeyRevoked(provider, key), effectiveAt, retroactive, code, reason))
    requires effectiveAt <= at
    ensures forall a :: a in AcceptableOf(authorities, events', listing, at) <==>
              && a in AcceptableOf(authorities, events, listing, at)
              && !(a.provider == provider && a.key == key && (retroactive || effectiveAt <= a.timestamp))
  {
    forall a: T.Attestation
      ensures G.AcceptableAt(events', a, at) <==>
              && G.AcceptableAt(events, a, at)
              && !(a.provider == provider && a.key == key && (retroactive || effectiveAt <= a.timestamp))
    {
      G.KeyRevocation(events, events', provider, key, effectiveAt, retroactive, code, reason, a, at);
    }
  }

  /** Once the one key is revoked that signed everything there is for an archive, nothing it signed from then on opens
      the gate. */
  lemma RevokedKeyAlone(all: seq<T.Attestation>, archive: V.ArchiveId, authorities: P.Authorities,
                        events: seq<Event<G.Entry>>, events': seq<Event<G.Entry>>, provider: nat, key: nat,
                        effectiveAt: int, retroactive: bool, code: nat, reason: nat, at: int, minimum: nat)
    requires G.Extends(events, events', G.Ruling(G.KeyRevoked(provider, key), effectiveAt, retroactive, code, reason))
    requires effectiveAt <= at && minimum >= 1
    requires forall a :: a in all && a.archive == archive ==>
               a.provider == provider && a.key == key && (retroactive || effectiveAt <= a.timestamp)
    ensures !OperationalQuorum(all, archive, authorities, events', at, minimum)
  {
    var listing := T.Listing(all, archive, LISTING_LIMIT);
    KeyRevocationCounts(authorities, events, events', provider, key, effectiveAt, retroactive, code, reason, listing,
                        at);
    assert T.Providers(AcceptableOf(authorities, events', listing, at)) == {};
  }

  // ----- effective verification and the disposition gate -----

  /** Everything the registry consults about one tenant. */
  datatype View = View(vault: V.Vault, all: seq<T.Attestation>, minimum: nat,
                       authorities: P.Authorities, limit: nat, events: seq<Event<G.Entry>>, at: int)

  /** What `effectiveArchiveVerification` answers; it refuses where one of its checks throws. */
  datatype Effective =
    | Refused
    | Verified(attestationCount: nat, policyQuorum: bool, acceptable: nat, providers: set<nat>, operationalQuorum: bool)

  /** The archive is preserved intact, and has no more attestations than policy looks at. */
  ghost predicate Judged(view: View, archive: V.ArchiveId) {
    V.Verifies(view.vault, archive) && |T.OfArchive(view.all, archive)| <= view.limit
  }

  ghost predicate Quorate(view: View, archive: V.ArchiveId) {
    OperationalQuorum(view.all, archive, view.authorities, view.events, view.at, view.minimum)
  }

  /** Exactly the providers of attestations of the archive whose key was in force and that no ruling in effect speaks
      against. */
  ghost predicate ProvidersBehind(view: View, archive: V.ArchiveId, providers: set<nat>) {
    forall provider: nat :: provider in providers <==>
      exists a :: a in view.all && a.archive == archive && a.provider == provider
                  && P.InForce(view.authorities, a) && G.AcceptableAt(view.events, a, view.at)
  }

  lemma AcceptableBehind(view: View, archive: V.ArchiveId)
    requires |T.OfArchive(view.all, archive)| <= LISTING_LIMIT
    ensures ProvidersBehind(view, archive, T.Providers(AcceptableOf(view.authorities, view.events,
                                                       T.Listing(view.all, archive, LISTING_LIMIT), view.at)))
  {
  }

  datatype Version = Version(number: nat, sha256: V.ContentDigest)

  datatype Item = Item(evidenceId: nat, disposed: bool, retentionUntil: int, versions: seq<Version>)

  /** The archive a version is looked up under. */
  function ArchiveOf(item: Item, v: Version): V.ArchiveId {
    V.ArchiveId(item.evidenceId, v.number, v.sha256, item.retentionUntil)
  }

  datatype Posture = Posture(total: nat, preserved: nat, operational: nat, missingPreservations: nat,
                             missingQuorum: nat)

  const NOTHING_COUNTED := Posture(0, 0, 0, 0, 0)

  ghost function Counted(view: View, p: Posture, archive: V.ArchiveId): Posture {
    if archive !in view.vault.objects then
      p.(total := p.total + 1, missingPreservations := p.missingPreservations + 1)
    else if Quorate(view, archive) then
      p.(total := p.total + 1, preserved := p.preserved + 1, operational := p.operational + 1)
    else
      p.(total := p.total + 1, preserved := p.preserved + 1, missingQuorum := p.missingQuorum + 1)
  }

  /** The count over these archives, where each that is preserved at all can be judged. */
  ghost function Tally(view: View, archives: seq<V.ArchiveId>): Posture {
    if archives == [] then NOTHING_COUNTED
    else Counted(view, Tally(view, archives[..|archives| - 1]), archives[|archives| - 1])
  }

  function ArchivesOf(item: Item): seq<V.ArchiveId> {
    if item.disposed then []
      else seq(|item.versions|, v requires 0 <= v < |item.versions| => ArchiveOf(item, item.versions[v]))
  }

  /** The archives of every version that is not disposed, item by item. */
  function LiveArchives(items: seq<Item>): seq<V.ArchiveId> {
    if items == [] then [] else LiveArchives(items[..|items| - 1]) + ArchivesOf(items[|items| - 1])
  }

  /** The object is there, but the archive cannot be judged. */
  ghost predicate Broken(view: View, archive: V.ArchiveId) {
    archive in view.vault.objects && !Judged(view, archive)
  }

  /** Every version is counted once, and nothing is missing exactly when every archive is there and quorate. */
  lemma {:induction false} TallyMeans(view: View, archives: seq<V.ArchiveId>)
    ensures var p := Tally(view, archives);
            && p.total == |archives| == p.preserved + p.missingPreservations
            && p.preserved == p.operational + p.missingQuorum
            && (p.missingPreservations == 0 && p.missingQuorum == 0 <==>
                  forall k :: 0 <= k < |archives| ==> archives[k] in view.vault.objects && Quorate(view, archives[k]))
    decreases |archives|
  {
    if archives != [] {
      var init := archives[..|archives| - 1];
      TallyMeans(view, init);
      assert forall k :: 0 <= k < |init| ==> archives[k] == init[k];
    }
  }

  lemma TallyMore(view: View, archives: seq<V.ArchiveId>, archive: V.ArchiveId)
    ensures Tally(view, archives + [archive]) == Counted(view, Tally(view, archives), archive)
  {
    assert (archives + [archive])[..|archives|] == archives;
  }

  lemma TallyNext(view: View, before: seq<V.ArchiveId>, item: Item, v: nat)
    requires !item.disposed && v < |item.versions|
    ensures |ArchivesOf(item)| == |item.versions|
    ensures Tally(view, before + ArchivesOf(item)[..v + 1]) ==
            Counted(view, Tally(view, before + ArchivesOf(item)[..v]), ArchiveOf(item, item.versions[v]))
  {
    var archives := ArchivesOf(item);
    TallyMore(view, before + archives[..v], archives[v]);
    assert before + archives[..v + 1] == before + archives[..v] + [archives[v]];
  }

  datatype Gate = Open | Closed | Failed

  class GovernedRegistry {
    const preserved: V.PreservationStore
    const attestations: T.AttestationStore
    const authorities: P.Authorities
    const archiveLimit: nat
    const journal: G.Journal
    const requiredForDisposition: bool

    ghost predicate Valid()
      reads preserved, attestations
    {
      attestations.preserved == preserved && attestations.Valid() && archiveLimit <= LISTING_LIMIT
    }

    ghost function ViewAt(at: int): View
      reads preserved, attestations, journal
    {
      View(V.Vault(preserved.objects, preserved.receipts), T.Bodies(attestations.records),
           attestations.minimumProviders, authorities, archiveLimit, journal.events, at)
    }

    constructor (preserved: V.PreservationStore, attestations: T.AttestationStore, authorities: P.Authorities,
                 archiveLimit: nat, journal: G.Journal, requiredForDisposition: bool)
      requires attestations.preserved == preserved && attestations.Valid() && archiveLimit <= LISTING_LIMIT
      ensures Valid() && this.preserved == preserved && this.attestations == attestations && this.journal == journal
      ensures this.authorities == authorities && this.archiveLimit == archiveLimit
      ensures this.requiredForDisposition == requiredForDisposition
    {
      this.preserved, this.attestations, this.authorities := preserved, attestations, authorities;
      this.archiveLimit, this.journal, this.requiredForDisposition := archiveLimit, journal, requiredForDisposition;
    }

    /** The journal's verdict on each listed attestation the key policy trusts. */
    method AcceptableProviders(listing: seq<T.Attestation>, at: int) returns (acceptable: nat, providers: set<nat>)
      ensures providers == T.Providers(AcceptableOf(authorities, journal.events, listing, at))
      ensures acceptable == |AcceptableOf(authorities, journal.events, listing, at)|
    {
      providers, acceptable := {}, 0;
      var i := 0;
      while i < |listing|
        invariant i <= |listing|
        invariant providers == T.Providers(AcceptableOf(authorities, journal.events, listing[..i], at))
        invariant acceptable == |AcceptableOf(authorities, journal.events, listing[..i], at)|
      {
        assert listing[..i + 1][..i] == listing[..i];
        var a := listing[i];
        var decision := journal.Evaluate(a, at);
        if P.EvaluatePolicy(authorities, a).Trusted? && decision.operationallyAcceptable {
          T.OneMoreProvider(AcceptableOf(authorities, journal.events, listing[..i], at), a);
          providers := providers + {a.provider};
          acceptable := acceptable + 1;
        }
        i := i + 1;
      }
      assert listing[..i] == listing;
    }

    /** `effectiveArchiveVerification`: the preservation check, the attestations' own verification, the key
        policy, and then the journal over what the policy trusts. */
    method EffectiveArchiveVerification(archive: V.ArchiveId, now: int) returns (result: Effective)
      requires Valid() && attestations.clock <= now
      ensures result.Refused? <==> !Judged(ViewAt(now), archive)
      ensures result.Verified? ==>
                var view := ViewAt(now);
                && result.attestationCount == |T.OfArchive(view.all, archive)|
                && (result.policyQuorum <==> PolicyQuorum(view.all, archive, archiveLimit, authorities, view.minimum))
                && ProvidersBehind(view, archive, result.providers)
                && result.acceptable == |AcceptableOf(authorities, view.events,
                                                      T.Listing(view.all, archive, LISTING_LIMIT), now)|
                && (result.operationalQuorum <==> Quorate(view, archive))
    {
      if !V.Verifies(V.Vault(preserved.objects, preserved.receipts), archive) {
        return Refused;
      }
      var valid, cryptographic := attestations.VerifyArchive(archive, now);
      T.RecordedVerify(attestations, archive, now);
      if !valid {
        return Refused;
      }
      var all := T.Bodies(attestations.records);
      var policy := P.VerifyPolicy(authorities, all, archive, archiveLimit, attestations.minimumProviders);
      if policy.TooManyAttestations? {
        return Refused;
      }
      var acceptable, providers := AcceptableProviders(T.Listing(all, archive, LISTING_LIMIT), now);
      AcceptableBehind(ViewAt(now), archive);
      return Verified(cryptographic.attestationCount, policy.quorumSatisfied, acceptable, providers,
                      |providers| >= attestations.minimumProviders);
    }

    /** One turn of the posture's inner loop; `None` where the look-up or the verification throws. */
    method CountVersion(item: Item, v: Version, p: Posture, now: int) returns (next: Option<Posture>)
      requires Valid() && attestations.clock <= now
      ensures next.None? <==> Broken(ViewAt(now), ArchiveOf(item, v))
      ensures next.Some? ==> next.value == Counted(ViewAt(now), p, ArchiveOf(item, v))
    {
      var found, receipt := preserved.VerifiedForVersion(item.evidenceId, v.number, v.sha256, item.retentionUntil);
      if !found {
        return Some(p.(total := p.total + 1, missingPreservations := p.missingPreservations + 1));
      }
      if receipt.None? {
        return None;
      }
      next := CountPreserved(receipt.value.archiveId, p, now);
    }

    method CountPreserved(archive: V.ArchiveId, p: Posture, now: int) returns (next: Option<Posture>)
      requires Valid() && attestations.clock <= now && archive in preserved.objects
      ensures next.None? <==> Broken(ViewAt(now), archive)
      ensures next.Some? ==> next.value == Counted(ViewAt(now), p, archive)
    {
      var effective := EffectiveArchiveVerification(archive, now);
      if effective.Refused? {
        return None;
      }
      if effective.operationalQuorum {
        return Some(p.(total := p.total + 1, preserved := p.preserved + 1, operational := p.operational + 1));
      }
      return Some(p.(total := p.total + 1, preserved := p.preserved + 1, missingQuorum := p.missingQuorum + 1));
    }

    /** The versions of one item that is not disposed. */
    method CountVersions(item: Item, p: Posture, ghost before: seq<V.ArchiveId>, now: int)
      returns (next: Option<Posture>)
      requires Valid() && attestations.clock <= now && !item.disposed && p == Tally(ViewAt(now), before)
      ensures next.None? <==> exists k ::
                0 <= k < |item.versions| && Broken(ViewAt(now), ArchiveOf(item, item.versions[k]))
      ensures next.Some? ==> next.value == Tally(ViewAt(now), before + ArchivesOf(item))
    {
      ghost var view := ViewAt(now);
      var counted := p;
      var v := 0;
      assert before + ArchivesOf(item)[..0] == before;
      while v < |item.versions|
        invariant v <= |item.versions| && counted == Tally(view, before + ArchivesOf(item)[..v])
        invariant forall k :: 0 <= k < v ==> !Broken(view, ArchiveOf(item, item.versions[k]))
      {
        var more := CountVersion(item, item.versions[v], counted, now);
        if more.None? {
          return None;
        }
        TallyNext(view, before, item, v);
        counted := more.value;
        v := v + 1;
      }
      assert ArchivesOf(item)[..v] == ArchivesOf(item);
      return Some(counted);
    }

    /** `currentOperationalPosture`: the count over every version of every item not yet disposed. It fails
        exactly when some version's archive is there but cannot be judged. */
    method CurrentOperationalPosture(items: seq<Item>, now: int) returns (posture: Option<Posture>)
      requires Valid() && attestations.clock <= now
      ensures posture.None? <==> exists archive :: archive in LiveArchives(items) && Broken(ViewAt(now), archive)
      ensures posture.Some? ==> posture.value == Tally(ViewAt(now), LiveArchives(items))
    {
      ghost var view := ViewAt(now);
      var p := NOTHING_COUNTED;
      var i := 0;
      while i < |items|
        invariant i <= |items| && p == Tally(view, LiveArchives(items[..i]))
        invariant forall archive :: archive in LiveArchives(items[..i]) ==> !Broken(view, archive)
      {
        LiveMore(items, i);
        if !items[i].disposed {
          var more := CountVersions(items[i], p, LiveArchives(items[..i]), now);
          if more.None? {
            LiveArchivesGrow(items, i + 1);
            ghost var k :| 0 <= k < |items[i].versions| && Broken(view, ArchiveOf(items[i], items[i].versions[k]));
            assert ArchivesOf(items[i])[k] in ArchivesOf(items[i]);
            return None;
          }
          p := more.value;
        } else {
          assert LiveArchives(items[..i]) + [] == LiveArchives(items[..i]);
        }
        i := i + 1;
      }
      assert items[..i] == items;
      return Some(p);
    }

    /** The gate in `dispose`: with governance required, an item may go only when the archive of each of its
        versions verifies and has an operational quorum behind it. */
    method DispositionGate(item: Item, now: int) returns (gate: Gate)
      requires Valid() && attestations.clock <= now
      ensures gate.Open? <==>
                !requiredForDisposition || item.disposed ||
                forall k :: 0 <= k < |item.versions| ==>
                  Judged(ViewAt(now), ArchiveOf(item, item.versions[k]))
                    && Quorate(ViewAt(now), ArchiveOf(item, item.versions[k]))
      ensures gate.Failed? <==>
                && requiredForDisposition && !item.disposed
                && exists k :: 0 <= k < |item.versions| && Broken(ViewAt(now), ArchiveOf(item, item.versions[k]))
    {
      if !requiredForDisposition {
        return Open;
      }
      var posture := CurrentOperationalPosture([item], now);
      OneItem(item);
      PostureMeans(ViewAt(now), item, posture);
      if posture.None? {
        return Failed;
      }
      return if posture.value.missingPreservations == 0 && posture.value.missingQuorum == 0 then Open else Closed;
    }
  }

  lemma LiveMore(items: seq<Item>, i: nat)
    requires i < |items|
    ensures LiveArchives(items[..i + 1]) == LiveArchives(items[..i]) + ArchivesOf(items[i])
  {
    assert items[..i + 1][..i] == items[..i];
  }

  lemma {:induction false} LiveArchivesGrow(items: seq<Item>, i: nat)
    requires i <= |items|
    ensures forall archive :: archive in LiveArchives(items[..i]) ==> archive in LiveArchives(items)
    decreases |items| - i
  {
    if i < |items| {
      LiveMore(items, i);
      LiveArchivesGrow(items, i + 1);
    } else {
      assert items[..i] == items;
    }
  }

  lemma OneItem(item: Item)
    ensures LiveArchives([item]) == ArchivesOf(item)
    ensures forall k :: 0 <= k < |ArchivesOf(item)| ==> ArchivesOf(item)[k] in ArchivesOf(item)
  {
    assert [item][..0] == [];
  }

  lemma PostureMeans(view: View, item: Item, posture: Option<Posture>)
    requires posture.None? <==> exists archive :: archive in ArchivesOf(item) && Broken(view, archive)
    requires posture.Some? ==> posture.value == Tally(view, ArchivesOf(item))
    ensures posture.None? <==>
              !item.disposed && exists k :: 0 <= k < |item.versions| && Broken(view, ArchiveOf(item, item.versions[k]))
    ensures posture.Some? && posture.value.missingPreservations == 0 && posture.value.missingQuorum == 0 <==>
              item.disposed ||
              forall k :: 0 <= k < |item.versions| ==>
                Judged(view, ArchiveOf(item, item.versions[k])) && Quorate(view, ArchiveOf(item, item.versions[k]))
  {
    var archives := ArchivesOf(item);
    TallyMeans(view, archives);
    if !item.disposed {
      forall k | 0 <= k < |item.versions|
        ensures archives[k] == ArchiveOf(item, item.versions[k]) && archives[k] in archives {
      }
    }
  }

  /** An item let through the gate has every kind of quorum behind every version, and loses the operational
      one only by later rulings or time. */
  lemma OpenGateMeans(view: View, archive: V.ArchiveId, earlier: seq<Event<G.Entry>>, before: int)
    requires Judged(view, archive) && Quorate(view, archive) && earlier <= view.events && before <= view.at
    ensures CryptographicQuorum(view.all, archive, view.minimum)
    ensures PolicyQuorum(view.all, archive, view.limit, view.authorities, view.minimum)
    ensures Quorate(view.(events := earlier, at := before), archive)
  {
    QuorumTower(view.all, archive, view.limit, view.authorities, view.events, view.at, view.minimum);
    LostQuorumStaysLost(view.all, archive, view.authorities, earlier, view.events, before, view.at, view.minimum);
  }
}
