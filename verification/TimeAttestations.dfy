/**
 The time-attestation store of src/evidence/evidenceTimeAttestationStore.js for one tenant. Signatures
 are genuine, and an attestation's identifier digests the whole submission, so two attestations with
 the same identifier are the same. The challenge of an archive is computed from its preservation receipt;
 that it never changes follows from what the archive proves of its runs.
 */
module TimeAttestations {
  import opened Prelude
  import opened HashChain
  import opened Runs
  import V = Preservation

  datatype ReceiptDigest = ReceiptSha256(preimage: V.Receipt)

  /** The challenge is the digest of the archive's preservation receipt. */
  datatype Attestation = Attestation(archive: V.ArchiveId, provider: nat, key: nat, challenge: ReceiptDigest,
                                     timestamp: int, policyId: nat, nonce: nat, signature: nat)

  datatype Windows = Windows(skewMs: nat, maximumDelayMs: nat)

  datatype RecordOutcome = Accepted | Duplicate | ChallengeMismatch | TimestampRejected | NonceReplay | CapacityReached

  datatype Verification = Verification(attestationCount: nat, providers: set<nat>, quorumSatisfied: bool)

  /** The receipt that verifying the archive finds. */
  function ReceiptOf(v: V.Vault, archive: V.ArchiveId): V.Receipt
    requires V.Verifies(v, archive)
  {
    v.receipts[V.RefFor(v.objects[archive])]
  }

  predicate MatchesChallenge(v: V.Vault, a: Attestation) {
    V.Verifies(v, a.archive) && a.challenge == ReceiptSha256(ReceiptOf(v, a.archive))
  }

  /** The timestamp lies between archiving and now, give or take the skew, and not too long after. */
  predicate TimestampOk(w: Windows, archivedAt: int, timestamp: int, now: int) {
    archivedAt - w.skewMs <= timestamp <= now + w.skewMs && timestamp - archivedAt <= w.maximumDelayMs
  }

  predicate StoredOk(w: Windows, v: V.Vault, a: Attestation, now: int) {
    MatchesChallenge(v, a) && TimestampOk(w, ReceiptOf(v, a.archive).archivedAt, a.timestamp, now)
  }

  /** What stays true of a recorded attestation whatever happens to the vault: its challenge is the digest of
      a receipt that is filed there. */
  ghost predicate Certified(w: Windows, receipts: map<V.Ref, V.Receipt>, a: Attestation, now: int) {
    var r := a.challenge.preimage;
    && r.archiveId == a.archive && TimestampOk(w, r.archivedAt, a.timestamp, now)
    && V.ReceiptRef(r) in receipts && receipts[V.ReceiptRef(r)] == r
  }

  /** A certified attestation verifies exactly when its archive does. */
  lemma CertifiedVerifies(w: Windows, log: seq<V.Op>, a: Attestation, now: int)
    requires V.After(log).Some?
    ensures var v := V.After(log).value.vault;
            && (Certified(w, v.receipts, a, now) ==> (StoredOk(w, v, a, now) <==> V.Verifies(v, a.archive)))
            && (StoredOk(w, v, a, now) ==> Certified(w, v.receipts, a, now))
  {
    var v, r := V.After(log).value.vault, a.challenge.preimage;
    V.VaultAuthentic(log);
    if Certified(w, v.receipts, a, now) && V.Verifies(v, a.archive) {
      V.FiledIsFound(log, r);
    }
  }

  /** Whatever matched its challenge in time once does so in every later state of the archive in which the archive
      verifies, and at every later time: the challenge never changes. */
  lemma StaysOk(w: Windows, log: seq<V.Op>, i: nat, j: nat, a: Attestation, now: int, later: int)
    requires V.After(log).Some? && i <= j <= |log| && now <= later
    requires StoredOk(w, V.At(log, i).vault, a, now)
    ensures var v := V.At(log, j).vault; StoredOk(w, v, a, later) <==> V.Verifies(v, a.archive)
  {
    PrefixRuns(V.Start(), V.Step, log, i);
    PrefixRuns(V.Start(), V.Step, log, j);
    CertifiedVerifies(w, log[..i], a, now);
    V.CommittedForever(log, i, j);
    CertifiedVerifies(w, log[..j], a, later);
  }

  // ----- selecting records -----

  function Bodies(records: seq<Event<Attestation>>): seq<Attestation> {
    seq(|records|, i requires 0 <= i < |records| => records[i].body)
  }

  function OfArchive(all: seq<Attestation>, archive: V.ArchiveId): (r: seq<Attestation>)
    ensures forall a :: a in r <==> a in all && a.archive == archive
  {
    if all == [] then []
    else
      var rest := OfArchive(all[..|all| - 1], archive);
      if all[|all| - 1].archive == archive then rest + [all[|all| - 1]] else rest
  }

  function Reversed(all: seq<Attestation>): (r: seq<Attestation>)
    ensures |r| == |all| && forall a :: a in r <==> a in all
  {
    if all == [] then [] else [all[|all| - 1]] + Reversed(all[..|all| - 1])
  }

  /** `list` for one archive: the last `limit` records, newest first. */
  function Listing(all: seq<Attestation>, archive: V.ArchiveId, limit: nat): (r: seq<Attestation>)
    ensures forall a :: a in r ==> a in all && a.archive == archive
    ensures |r| == if |OfArchive(all, archive)| > limit then limit else |OfArchive(all, archive)|
    ensures |OfArchive(all, archive)| <= limit ==> forall a :: a in all && a.archive == archive ==> a in r
  {
    var own := OfArchive(all, archive);
    Reversed(own[if |own| > limit then |own| - limit else 0..])
  }

  lemma {:induction false} ReversedAt(all: seq<Attestation>, k: nat)
    requires k < |all|
    ensures Reversed(all)[k] == all[|all| - 1 - k]
  {
    if k > 0 {
      ReversedAt(all[..|all| - 1], k - 1);
    }
  }

  /** Newest first, and the newest when there are too many. */
  lemma ListingNewestFirst(all: seq<Attestation>, archive: V.ArchiveId, limit: nat, k: nat)
    requires k < |Listing(all, archive, limit)|
    ensures var own := OfArchive(all, archive); Listing(all, archive, limit)[k] == own[|own| - 1 - k]
  {
    var own := OfArchive(all, archive);
    ReversedAt(own[if |own| > limit then |own| - limit else 0..], k);
  }

  function Providers(all: seq<Attestation>): set<nat> {
    set a | a in all :: a.provider
  }

  class AttestationStore {
    const minimumProviders: nat
    const windows: Windows
    const recordLimit: nat
    /** Resolves challenges. */
    const preserved: V.PreservationStore
    var records: seq<Event<Attestation>>
    var sequence: nat
    var headHash: Option<Digest<Attestation>>
    /** The latest clock reading any operation has seen. */
    ghost var clock: int

    ghost predicate Valid()
      reads this, preserved
    {
      && preserved.Valid()
      && IsFull(records, headHash) && sequence == |records| <= recordLimit
      && (forall i :: 0 <= i < |records| ==> Certified(windows, preserved.receipts, records[i].body, clock))
      && (forall i, j :: 0 <= i < j < |records| ==> !SameNonce(records[i].body, records[j].body))
    }

    function Vault(): V.Vault
      reads preserved
    {
      V.Vault(preserved.objects, preserved.receipts)
    }

    constructor (minimumProviders: nat, windows: Windows, recordLimit: nat, preserved: V.PreservationStore,
                 ghost now: int)
      requires preserved.Valid()
      ensures Valid() && records == [] && clock == now
      ensures this.minimumProviders == minimumProviders && this.windows == windows && this.recordLimit == recordLimit
      ensures this.preserved == preserved
    {
      this.minimumProviders, this.windows, this.recordLimit := minimumProviders, windows, recordLimit;
      this.preserved := preserved;
      records, sequence, headHash, clock := [], 0, None, now;
    }

    /** `record`, for a submission whose signature has been checked. */
    method Record(a: Attestation, now: int) returns (outcome: RecordOutcome)
      requires Valid() && clock <= now
      modifies this
      ensures Valid() && clock == now
      ensures outcome.Accepted? <==>
              && StoredOk(windows, Vault(), a, now) && |old(records)| < recordLimit
              && forall i :: 0 <= i < |old(records)| ==> !SameNonce(old(records)[i].body, a)
      ensures outcome.ChallengeMismatch? <==> !MatchesChallenge(Vault(), a)
      ensures outcome.TimestampRejected? <==>
              && MatchesChallenge(Vault(), a)
              && var archivedAt := ReceiptOf(Vault(), a.archive).archivedAt;
                 !(&& archivedAt - windows.skewMs <= a.timestamp <= now + windows.skewMs
                   && a.timestamp <= archivedAt + windows.maximumDelayMs)
      ensures outcome.NonceReplay? <==>
              && StoredOk(windows, Vault(), a, now)
              && (forall i :: 0 <= i < |old(records)| ==> old(records)[i].body != a)
              && exists i :: 0 <= i < |old(records)| && UsesNonce(old(records)[i].body, a.provider, a.key, a.nonce)
      ensures outcome.Duplicate? <==>
              StoredOk(windows, Vault(), a, now) && exists i :: 0 <= i < |old(records)| && old(records)[i].body == a
      ensures if outcome.Accepted? then Bodies(records) == Bodies(old(records)) + [a] && old(records) <= records
              else records == old(records)
    {
      clock := now;
      if !MatchesChallenge(Vault(), a) {
        return ChallengeMismatch;
      }
      if !TimestampOk(windows, ReceiptOf(Vault(), a.archive).archivedAt, a.timestamp, now) {
        return TimestampRejected;
      }
      var i := 0;
      var replayed := false;
      while i < |records|
        invariant i <= |records| && forall k :: 0 <= k < i ==> records[k].body != a
        invariant replayed <==> exists k :: 0 <= k < i && SameNonce(records[k].body, a)
      {
        if records[i].body == a {
          return Duplicate;
        }
        replayed := replayed || SameNonce(records[i].body, a);
        i := i + 1;
      }
      if replayed {
        return NonceReplay;
      }
      if |records| >= recordLimit {
        return CapacityReached;
      }
      CertifiedVerifies(windows, preserved.log, a, now);
      var entry := NewEvent(sequence + 1, a, headHash);
      FullAfterAppend(records, headHash, entry);
      assert Bodies(records + [entry]) == Bodies(records) + [a];
      records := records + [entry];
      sequence := entry.sequence;
      headHash := Some(entry.hash);
      return Accepted;
    }

    /** `verifyArchivesWithIndex` for one archive: whether every record still verifies, and the quorum. */
    method VerifyArchive(archive: V.ArchiveId, now: int) returns (valid: bool, verification: Verification)
      ensures valid <==> V.Verifies(Vault(), archive) && forall i ::
                0 <= i < |records| && records[i].body.archive == archive ==>
                                                   StoredOk(windows, Vault(), records[i].body, now)
      ensures valid ==>
                var own := OfArchive(Bodies(records), archive);
                verification == Verification(|own|, Providers(own), |Providers(own)| >= minimumProviders)
    {
      var count, providers := 0, {};
      verification := Verification(0, {}, false);
      if !V.Verifies(Vault(), archive) {
        return false, verification;
      }
      var i := 0;
      while i < |records|
        invariant i <= |records|
        invariant forall k :: 0 <= k < i && records[k].body.archive == archive ==>
                    StoredOk(windows, Vault(), records[k].body, now)
        invariant count == |OfArchive(Bodies(records)[..i], archive)|
                  && providers == Providers(OfArchive(Bodies(records)[..i], archive))
      {
        assert Bodies(records)[..i + 1][..i] == Bodies(records)[..i];
        if records[i].body.archive == archive {
          if !StoredOk(windows, Vault(), records[i].body, now) {
            return false, verification;
          }
          OneMoreProvider(OfArchive(Bodies(records)[..i], archive), records[i].body);
          count := count + 1;
          providers := providers + {records[i].body.provider};
        }
        i := i + 1;
      }
      assert Bodies(records)[..i] == Bodies(records);
      return true, Verification(count, providers, |providers| >= minimumProviders);
    }

    /** `verifyChain`. */
    method VerifyChain() returns (valid: bool)
      ensures valid <==> IsFull(records, headHash) && sequence == |records|
    {
      var linked, previousHash, expectedSequence := CheckLinks(Origin(), records);
      valid := linked && sequence == expectedSequence - 1 && headHash == previousHash;
    }
  }

  predicate SameNonce(a: Attestation, b: Attestation) {
    a.provider == b.provider && a.key == b.key && a.nonce == b.nonce
  }

  /** The attestation was made with this key under this nonce. */
  predicate UsesNonce(a: Attestation, provider: nat, key: nat, nonce: nat) {
    a.provider == provider && a.key == key && a.nonce == nonce
  }

  lemma OneMoreProvider(all: seq<Attestation>, a: Attestation)
    ensures Providers(all + [a]) == Providers(all) + {a.provider}
  {
    forall p ensures p in Providers(all + [a]) <==> p in Providers(all) + {a.provider} {
      assert (all + [a])[|all|] == a;
    }
  }

  lemma FewerProviders(some: seq<Attestation>, all: seq<Attestation>)
    requires forall a :: a in some ==> a in all
    ensures Providers(some) <= Providers(all) && |Providers(some)| <= |Providers(all)|
  {
    SubsetSize(Providers(some), Providers(all));
  }

  /** What an archive that verifies has on record verifies too. */
  lemma RecordedVerify(store: AttestationStore, archive: V.ArchiveId, now: int)
    requires store.Valid() && store.clock <= now && V.Verifies(store.Vault(), archive)
    ensures forall i :: 0 <= i < |store.records| && store.records[i].body.archive == archive ==>
              StoredOk(store.windows, store.Vault(), store.records[i].body, now)
  {
    forall i | 0 <= i < |store.records| && store.records[i].body.archive == archive
      ensures StoredOk(store.windows, store.Vault(), store.records[i].body, now)
    {
      CertifiedVerifies(store.windows, store.preserved.log, store.records[i].body, now);
    }
  }

  /** Whatever is on record carries the digest of a receipt filed for its archive, was signed no earlier than the skew
      before archiving and no later than the maximum delay after it, nor further ahead of the clock than the skew, and
      no two records share key and nonce. */
  lemma OnRecord(store: AttestationStore, i: nat)
    requires store.Valid() && i < |store.records|
    ensures var a, w := store.records[i].body, store.windows;
            && a.challenge.preimage.archiveId == a.archive
            && (exists ref :: ref in store.preserved.receipts && store.preserved.receipts[ref] == a.challenge.preimage)
            && a.challenge.preimage.archivedAt - w.skewMs <= a.timestamp
            && a.timestamp <= a.challenge.preimage.archivedAt + w.maximumDelayMs
            && a.timestamp <= store.clock + w.skewMs
    ensures forall j :: 0 <= j < |store.records| && j != i ==>
              !UsesNonce(store.records[j].body, store.records[i].body.provider, store.records[i].body.key,
                         store.records[i].body.nonce)
  {
    assert Certified(store.windows, store.preserved.receipts, store.records[i].body, store.clock);
    assert forall j :: 0 <= j < i ==> !SameNonce(store.records[j].body, store.records[i].body);
    assert forall j :: i < j < |store.records| ==> !SameNonce(store.records[i].body, store.records[j].body);
  }

  /** Once recorded, an attestation verifies ever after: no later record or clock breaks an archive, and
      its quorum counts the distinct providers among everything recorded for it. */
  method VerifyRecorded(store: AttestationStore, archive: V.ArchiveId, now: int)
    returns (valid: bool, verification: Verification)
    requires store.Valid() && store.clock <= now && V.Verifies(store.Vault(), archive)
    ensures valid
    ensures verification.quorumSatisfied <==>
              |Providers(OfArchive(Bodies(store.records), archive))| >= store.minimumProviders
  {
    valid, verification := store.VerifyArchive(archive, now);
    RecordedVerify(store, archive, now);
  }
}
