/**
 The preservation archive of src/evidence/evidencePreservationStore.js for one tenant: an object file
 and then a receipt file, each created once and never written again. A crash between the two leaves an
 object without a receipt, which repeating the request repairs. Encryption is transparent and
 signatures are genuine; digests are injective.

 A step of a run is one exclusive create, under the checks the code makes before it, the loss of an
 object file by someone else's doing, or a crash.
 */
module Preservation {
  import opened Prelude
  import opened Runs

  type Content = seq<nat>

  datatype ContentDigest = ContentSha256(content: Content)

  datatype Source = Source(evidenceId: nat, version: nat, contentSha256: ContentDigest, sizeBytes: nat,
                           retentionUntil: int, legalHold: bool, content: Content)

  /** Digests evidence, version, content and retention date, so repeating a request finds the same archive. */
  datatype ArchiveId = ArchiveId(evidenceId: nat, version: nat, contentSha256: ContentDigest, retentionUntil: int)

  datatype Object = Object(archiveId: ArchiveId, evidenceId: nat, version: nat, contentSha256: ContentDigest,
                           sizeBytes: nat, retentionUntil: int, legalHold: bool, archivedAt: nat, archivedBy: nat,
                           purpose: nat, content: Content)

  datatype EnvelopeDigest = EnvelopeSha256(preimage: Object)

  /** Where a receipt is filed: the evidence directory, then time and archive in the file name. */
  datatype Ref = Ref(evidenceId: nat, archivedAt: nat, archiveId: ArchiveId)

  datatype Receipt = Receipt(archiveId: ArchiveId, evidenceId: nat, version: nat, contentSha256: ContentDigest,
                             sizeBytes: nat, objectEnvelopeSha256: EnvelopeDigest, retentionUntil: int,
                             legalHoldActive: bool, archivedAt: nat, archivedBy: nat, purpose: nat)

  datatype Vault = Vault(objects: map<ArchiveId, Object>, receipts: map<Ref, Receipt>)

  datatype Outcome = Archived(receipt: Receipt) | Recovered(receipt: Receipt) | Duplicate(receipt: Receipt)
    | IntegrityError | StoreFailure

  function ArchiveIdFor(s: Source): ArchiveId {
    ArchiveId(s.evidenceId, s.version, s.contentSha256, s.retentionUntil)
  }

  /** What the store requires of a request: the digest and size are those of the content. */
  predicate ValidSource(s: Source) {
    s.contentSha256 == ContentSha256(s.content) && s.sizeBytes == |s.content|
  }

  function NewObject(s: Source, now: nat, actor: nat, purpose: nat): Object {
    Object(ArchiveIdFor(s), s.evidenceId, s.version, s.contentSha256, s.sizeBytes, s.retentionUntil, s.legalHold, now,
           actor, purpose, s.content)
  }

  function RefFor(o: Object): Ref {
    Ref(o.evidenceId, o.archivedAt, o.archiveId)
  }

  function MakeReceipt(o: Object): Receipt {
    Receipt(o.archiveId, o.evidenceId, o.version, o.contentSha256, o.sizeBytes, EnvelopeSha256(o), o.retentionUntil,
            o.legalHold, o.archivedAt, o.archivedBy, o.purpose)
  }

  /** The object holds what was submitted, and when, by whom and why it was archived. */
  predicate IsObjectOf(o: Object, s: Source, now: nat, actor: nat, purpose: nat) {
    && o.archiveId == ArchiveId(s.evidenceId, s.version, s.contentSha256, s.retentionUntil)
    && o.evidenceId == s.evidenceId && o.version == s.version && o.contentSha256 == s.contentSha256
    && o.sizeBytes == s.sizeBytes && o.retentionUntil == s.retentionUntil && o.legalHold == s.legalHold
    && o.content == s.content && o.archivedAt == now && o.archivedBy == actor && o.purpose == purpose
  }

  /** The receipt repeats what the object says, and digests it. */
  predicate IsReceiptOf(r: Receipt, o: Object) {
    && r.archiveId == o.archiveId && r.evidenceId == o.evidenceId && r.version == o.version
    && r.contentSha256 == o.contentSha256 && r.sizeBytes == o.sizeBytes
    && r.objectEnvelopeSha256 == EnvelopeSha256(o) && r.retentionUntil == o.retentionUntil
    && r.legalHoldActive == o.legalHold && r.archivedAt == o.archivedAt && r.archivedBy == o.archivedBy
    && r.purpose == o.purpose
  }

  predicate ObjectMatches(o: Object, s: Source) {
    o.evidenceId == s.evidenceId && o.version == s.version && o.contentSha256 == s.contentSha256
    && o.sizeBytes == s.sizeBytes && o.retentionUntil == s.retentionUntil
  }

  predicate ReceiptMatches(r: Receipt, o: Object) {
    && r.objectEnvelopeSha256 == EnvelopeSha256(o) && r.evidenceId == o.evidenceId && r.version == o.version
    && r.contentSha256 == o.contentSha256 && r.sizeBytes == o.sizeBytes && r.retentionUntil == o.retentionUntil
    && r.archivedAt == o.archivedAt
  }

  /** The check of one archive: object, receipt, and that they belong together. */
  predicate Verifies(v: Vault, id: ArchiveId) {
    id in v.objects && RefFor(v.objects[id]) in v.receipts
      && ReceiptMatches(v.receipts[RefFor(v.objects[id])], v.objects[id])
  }

  // ----- runs -----

  /** Between creating or finding an object and filing its receipt. */
  datatype Doing = Idle | Filing(pending: Object)

  datatype System = System(vault: Vault, doing: Doing)

  datatype Op =
    | CreateObject(source: Source, now: nat, actor: nat, purpose: nat)
    | BeginRepair(id: ArchiveId)
    | FileReceipt
    | Crash
    | LoseObject(id: ArchiveId)

  ghost predicate HasReceiptFor(v: Vault, id: ArchiveId) {
    exists ref :: ref in v.receipts && ref.archiveId == id
  }

  ghost function Step(s: System, op: Op): Option<System> {
    var v := s.vault;
    match op
    case CreateObject(source, now, actor, purpose) =>
      var id := ArchiveIdFor(source);
      if s.doing.Idle? && ValidSource(source) && id !in v.objects && !HasReceiptFor(v, id) then
        var o := NewObject(source, now, actor, purpose);
        Some(System(v.(objects := v.objects[id := o]), Filing(o)))
      else None
    case BeginRepair(id) =>
      if s.doing.Idle? && id in v.objects && RefFor(v.objects[id]) !in v.receipts
      then Some(s.(doing := Filing(v.objects[id])))
      else None
    case FileReceipt =>
      if s.doing.Filing? && RefFor(s.doing.pending) !in v.receipts then
        Some(System(v.(receipts := v.receipts[RefFor(s.doing.pending) := MakeReceipt(s.doing.pending)]), Idle))
      else None
    case Crash => Some(s.(doing := Idle))
    case LoseObject(id) => Some(System(v.(objects := v.objects - {id}), s.doing))
  }

  ghost function Start(): System {
    System(Vault(map[], map[]), Idle)
  }

  ghost function After(log: seq<Op>): Option<System> {
    Run(Start(), Step, log)
  }

  /** The state `n` steps into a run. */
  ghost function At(log: seq<Op>, n: nat): System
    requires After(log).Some? && n <= |log|
  {
    PrefixRuns(Start(), Step, log, n);
    After(log[..n]).value
  }

  lemma AtNext(log: seq<Op>, i: nat)
    requires After(log).Some? && i < |log|
    ensures Step(At(log, i), log[i]) == Some(At(log, i + 1))
  {
    StepAt(Start(), Step, log, i);
  }

  ghost predicate NothingLost(log: seq<Op>) {
    forall i :: 0 <= i < |log| ==> !log[i].LoseObject?
  }

  // ----- what the exclusive creates add up to -----

  ghost predicate IsIntact(id: ArchiveId, o: Object) {
    && o.archiveId == id == ArchiveId(o.evidenceId, o.version, o.contentSha256, o.retentionUntil)
    && o.contentSha256 == ContentSha256(o.content) && o.sizeBytes == |o.content|
  }

  /** Objects are intact and receipts were each made for some object, which may have been lost since. */
  ghost predicate Authentic(v: Vault) {
    && (forall id :: id in v.objects ==> IsIntact(id, v.objects[id]))
    && (forall ref :: ref in v.receipts ==>
          var o := v.receipts[ref].objectEnvelopeSha256.preimage;
          v.receipts[ref] == MakeReceipt(o) && ref == RefFor(o))
  }

  /** Every receipt has the object it was made for. */
  ghost predicate Paired(v: Vault) {
    forall ref :: ref in v.receipts ==>
      ref.archiveId in v.objects && RefFor(v.objects[ref.archiveId]) == ref
        && v.receipts[ref] == MakeReceipt(v.objects[ref.archiveId])
  }

  /** Write-once: files appear, and never change or go. */
  ghost predicate OnlyAdds(v: Vault, v': Vault) {
    && (forall id :: id in v.objects ==> id in v'.objects && v'.objects[id] == v.objects[id])
    && (forall ref :: ref in v.receipts ==> ref in v'.receipts && v'.receipts[ref] == v.receipts[ref])
  }

  lemma {:induction false} RunAuthentic(log: seq<Op>, n: nat)
    requires After(log).Some? && n <= |log|
    ensures Authentic(At(log, n).vault)
    ensures At(log, n).doing.Filing? ==> IsIntact(At(log, n).doing.pending.archiveId, At(log, n).doing.pending)
  {
    if n > 0 {
      RunAuthentic(log, n - 1);
      AtNext(log, n - 1);
    }
  }

  ghost predicate PairedInv(s: System) {
    && Authentic(s.vault) && Paired(s.vault)
    && (s.doing.Filing? ==>
        s.doing.pending.archiveId in s.vault.objects && s.vault.objects[s.doing.pending.archiveId] == s.doing.pending)
  }

  lemma StepKeepsPaired(s: System, op: Op)
    requires PairedInv(s) && !op.LoseObject? && Step(s, op).Some?
    requires Authentic(Step(s, op).value.vault)
    ensures PairedInv(Step(s, op).value)
  {
  }

  /** As long as nobody else removes an object, every receipt has its matching object, wherever a crash
      strikes. */
  lemma {:induction false} RunsStayPaired(log: seq<Op>, n: nat)
    requires After(log).Some? && n <= |log| && NothingLost(log)
    ensures PairedInv(At(log, n)) && Paired(At(log, n).vault)
  {
    if n > 0 {
      RunsStayPaired(log, n - 1);
      AtNext(log, n - 1);
      RunAuthentic(log, n);
      StepKeepsPaired(At(log, n - 1), log[n - 1]);
    }
  }

  /** No committed object or receipt ever changes, and none goes of the store's own doing. */
  lemma {:induction false} CommittedForever(log: seq<Op>, i: nat, j: nat)
    requires After(log).Some? && i <= j <= |log|
    ensures var v, v' := At(log, i).vault, At(log, j).vault;
            && (NothingLost(log) ==> OnlyAdds(v, v'))
            && (forall ref :: ref in v.receipts ==> ref in v'.receipts && v'.receipts[ref] == v.receipts[ref])
    decreases j - i
  {
    if i < j {
      CommittedForever(log, i, j - 1);
      AtNext(log, j - 1);
    }
  }

  // ----- one receipt per archive -----

  /** No archive has two receipts, whatever objects were lost; a receipt about to be filed is the first. */
  ghost predicate OneReceipt(s: System) {
    && (forall a, b :: a in s.vault.receipts && b in s.vault.receipts && a.archiveId == b.archiveId ==> a == b)
    && (forall ref :: ref in s.vault.receipts && ref.archiveId in s.vault.objects ==>
          RefFor(s.vault.objects[ref.archiveId]) == ref)
    && (s.doing.Filing? ==>
          && !HasReceiptFor(s.vault, s.doing.pending.archiveId)
          && (s.doing.pending.archiveId in s.vault.objects ==>
              s.vault.objects[s.doing.pending.archiveId] == s.doing.pending))
  }

  lemma StepKeepsOneReceipt(s: System, op: Op)
    requires OneReceipt(s) && Authentic(s.vault) && Step(s, op).Some?
    ensures OneReceipt(Step(s, op).value)
  {
  }

  lemma {:induction false} RunOneReceipt(log: seq<Op>, n: nat)
    requires After(log).Some? && n <= |log|
    ensures OneReceipt(At(log, n))
  {
    if n > 0 {
      RunOneReceipt(log, n - 1);
      RunAuthentic(log, n - 1);
      AtNext(log, n - 1);
      StepKeepsOneReceipt(At(log, n - 1), log[n - 1]);
    }
  }

  /** Where a receipt is filed can be told from the receipt. */
  function ReceiptRef(r: Receipt): Ref {
    Ref(r.evidenceId, r.archivedAt, r.archiveId)
  }

  /** A receipt once filed is the one any later verification of its archive finds. */
  lemma FiledIsFound(log: seq<Op>, r: Receipt)
    requires After(log).Some?
    requires var v := After(log).value.vault;
             ReceiptRef(r) in v.receipts && v.receipts[ReceiptRef(r)] == r && Verifies(v, r.archiveId)
    ensures var v := After(log).value.vault; v.receipts[RefFor(v.objects[r.archiveId])] == r
  {
    RunOneReceipt(log, |log|);
    RunAuthentic(log, |log|);
    assert log[..|log|] == log;
  }

  lemma VaultAuthentic(log: seq<Op>)
    requires After(log).Some?
    ensures Authentic(After(log).value.vault)
  {
    RunAuthentic(log, |log|);
    assert log[..|log|] == log;
  }

  class PreservationStore {
    var objects: map<ArchiveId, Object>
    var receipts: map<Ref, Receipt>
    /** Everything that ever happened to the vault. */
    ghost var log: seq<Op>

    ghost predicate Doing(doing: Doing)
      reads this
    {
      After(log) == Some(System(Vault(objects, receipts), doing))
    }

    ghost predicate Valid()
      reads this
    {
      Doing(Idle)
    }

    /** Opens the vault over what an earlier run, crashed or not, left behind. */
    constructor (v: Vault, ghost log: seq<Op>)
      requires After(log) == Some(System(v, Idle))
      ensures Valid() && objects == v.objects && receipts == v.receipts && this.log == log
    {
      this.objects, this.receipts, this.log := v.objects, v.receipts, log;
    }

    ghost method Record(op: Op, next: Doing)
      requires After(log).Some? && Step(After(log).value, op) == Some(System(Vault(objects, receipts), next))
      modifies this`log
      ensures Doing(next) && log == old(log) + [op]
    {
      RunMore(Start(), Step, log, op);
      log := log + [op];
    }

    /** `writeJsonExclusive` of a receipt, and what becomes of the request when it fails. */
    method CreateReceipt(o: Object, fails: bool) returns (filed: bool)
      requires Doing(Filing(o)) && RefFor(o) !in receipts
      modifies this`receipts, this`log
      ensures Valid() && old(log) <= log && filed == !fails
      ensures NothingLost(old(log)) ==> NothingLost(log)
      ensures receipts == if filed then old(receipts)[RefFor(o) := MakeReceipt(o)] else old(receipts)
    {
      if fails {
        Record(Crash, Idle);
        return false;
      }
      receipts := receipts[RefFor(o) := MakeReceipt(o)];
      Record(FileReceipt, Idle);
      return true;
    }

    /** `findReceiptRefByArchiveId`. */
    method HasReceipt(id: ArchiveId) returns (found: bool)
      ensures found <==> HasReceiptFor(Vault(objects, receipts), id)
    {
      var rest := receipts.Keys;
      while rest != {}
        invariant rest <= receipts.Keys
        invariant forall ref :: ref in receipts && ref.archiveId == id ==> ref in rest
        decreases rest
      {
        var ref :| ref in rest;
        if ref.archiveId == id {
          return true;
        }
        rest := rest - {ref};
      }
      return false;
    }

    /** `preserve`. The flags say which of the two writes fail. */
    method Preserve(s: Source, now: nat, actor: nat, purpose: nat, objectFails: bool, receiptFails: bool)
      returns (outcome: Outcome)
      requires Valid() && ValidSource(s)
      modifies this
      ensures Valid() && old(log) <= log && (NothingLost(old(log)) ==> NothingLost(log))
      ensures var id := ArchiveIdFor(s);
              var was := Vault(old(objects), old(receipts));
              match outcome
              case Archived(r) =>
                var o := NewObject(s, now, actor, purpose);
                && id !in was.objects && r == MakeReceipt(o)
                && objects == was.objects[id := o] && receipts == was.receipts[RefFor(o) := r]
              case Recovered(r) =>
                && id in was.objects && RefFor(was.objects[id]) !in was.receipts && r == MakeReceipt(was.objects[id])
                && objects == was.objects && receipts == was.receipts[RefFor(was.objects[id]) := r]
              case Duplicate(r) =>
                && Verifies(was, id) && r == MakeReceipt(was.objects[id])
                && objects == was.objects && receipts == was.receipts
              case IntegrityError =>
                && objects == was.objects && receipts == was.receipts
                && (if id in was.objects then RefFor(was.objects[id]) in was.receipts && !Verifies(was, id)
                    else exists ref :: ref in was.receipts && ref.archiveId == id)
              case StoreFailure =>
                && receipts == was.receipts && (objectFails || receiptFails)
                && (objects == was.objects
                    || (id !in was.objects && objects == was.objects[id := NewObject(s, now, actor, purpose)]))
      ensures !outcome.IntegrityError? && !outcome.StoreFailure? ==> Verifies(Vault(objects, receipts), ArchiveIdFor(s))
      ensures outcome.Archived? ==>
                var id := ArchiveId(s.evidenceId, s.version, s.contentSha256, s.retentionUntil);
                && id in objects && IsObjectOf(objects[id], s, now, actor, purpose)
                && IsReceiptOf(outcome.receipt, objects[id])
    {
      var id := ArchiveIdFor(s);
      VaultAuthentic(log);
      if id in objects {
        var o := objects[id];
        if !ObjectMatches(o, s) {
          return IntegrityError;
        }
        if RefFor(o) !in receipts {
          Record(BeginRepair(id), Filing(o));
          var repaired := CreateReceipt(o, receiptFails);
          return if repaired then Recovered(MakeReceipt(o)) else StoreFailure;
        }
        if !Verifies(Vault(objects, receipts), id) {
          return IntegrityError;
        }
        return Duplicate(receipts[RefFor(o)]);
      }
      var orphan := HasReceipt(id);
      if orphan {
        return IntegrityError;
      }
      if objectFails {
        return StoreFailure;
      }
      var o := NewObject(s, now, actor, purpose);
      objects := objects[id := o];
      Record(CreateObject(s, now, actor, purpose), Filing(o));
      var filed := CreateReceipt(o, receiptFails);
      return if filed then Archived(MakeReceipt(o)) else StoreFailure;
    }

    /** `verifyTenant`: no object or receipt without its partner, no archive with two receipts, and every
        archive verifies. */
    method VerifyTenant() returns (valid: bool)
      ensures valid <==>
              && objects.Keys == ReceiptIds(receipts) && |receipts| == |ReceiptIds(receipts)|
              && forall id :: id in objects ==> Verifies(Vault(objects, receipts), id)
    {
      var receiptIds := ReceiptIds(receipts);
      var orphanObjects := objects.Keys - receiptIds;
      var orphanReceipts := receiptIds - objects.Keys;
      var duplicateReceipts := |receipts| - |receiptIds|;
      SameSets(objects.Keys, receiptIds);
      if orphanObjects != {} || orphanReceipts != {} || duplicateReceipts != 0 {
        return false;
      }
      var rest := objects.Keys;
      while rest != {}
        invariant rest <= objects.Keys
        invariant forall id :: id in objects ==> id in rest || Verifies(Vault(objects, receipts), id)
        decreases rest
      {
        var id :| id in rest;
        if !Verifies(Vault(objects, receipts), id) {
          return false;
        }
        rest := rest - {id};
      }
      return true;
    }

    /** `verifiedForVersion`: the receipt of exactly this version under exactly this retention date. */
    method VerifiedForVersion(evidenceId: nat, version: nat, digest: ContentDigest, retentionUntil: int)
      returns (found: bool, receipt: Option<Receipt>)
      requires Valid()
      ensures var id := ArchiveId(evidenceId, version, digest, retentionUntil);
              && (found <==> id in objects)
              && (receipt.Some? <==> Verifies(Vault(objects, receipts), id))
              && (receipt.Some? ==> receipt.value == MakeReceipt(objects[id]) && receipt.value.archiveId == id
                                    && objects[id].evidenceId == evidenceId
                                    && objects[id].version == version && objects[id].contentSha256 == digest
                                    && objects[id].retentionUntil == retentionUntil
                                    && digest == ContentSha256(objects[id].content))
    {
      var id := ArchiveId(evidenceId, version, digest, retentionUntil);
      if id !in objects {
        return false, None;
      }
      VaultAuthentic(log);
      if !Verifies(Vault(objects, receipts), id) {
        return true, None;
      }
      return true, Some(receipts[RefFor(objects[id])]);
    }
  }

  function ReceiptIds(receipts: map<Ref, Receipt>): set<ArchiveId> {
    set ref | ref in receipts :: ref.archiveId
  }

  lemma SameSets<T>(a: set<T>, b: set<T>)
    ensures a == b <==> a - b == {} && b - a == {}
  {
    if a - b == {} && b - a == {} {
      forall x ensures x in a <==> x in b {
        assert x in a && x !in b ==> x in a - b;
        assert x in b && x !in a ==> x in b - a;
      }
    }
  }

  lemma {:induction false} IdsMatchRefs(receipts: map<Ref, Receipt>, refs: set<Ref>)
    requires refs <= receipts.Keys
    requires forall a, b :: a in refs && b in refs && a.archiveId == b.archiveId ==> a == b
    ensures |set ref | ref in refs :: ref.archiveId| == |refs|
    decreases refs
  {
    if refs == {} {
      assert (set ref | ref in refs :: ref.archiveId) == {};
    } else {
      var ref :| ref in refs;
      var rest := refs - {ref};
      IdsMatchRefs(receipts, rest);
      assert (set r | r in refs :: r.archiveId) == (set r | r in rest :: r.archiveId) + {ref.archiveId};
    }
  }

  lemma PairedVerifiesIff(v: Vault)
    requires Authentic(v) && Paired(v)
    ensures (&& v.objects.Keys == ReceiptIds(v.receipts) && |v.receipts| == |ReceiptIds(v.receipts)|
             && forall id :: id in v.objects ==> Verifies(v, id))
            <==> v.objects.Keys == ReceiptIds(v.receipts)
  {
    IdsMatchRefs(v.receipts, v.receipts.Keys);
    assert |v.receipts| == |v.receipts.Keys|;
    assert ReceiptIds(v.receipts) == set ref | ref in v.receipts.Keys :: ref.archiveId;
    if v.objects.Keys == ReceiptIds(v.receipts) {
      forall id | id in v.objects ensures Verifies(v, id) {
        assert id in ReceiptIds(v.receipts);
        var ref :| ref in v.receipts && ref.archiveId == id;
      }
    }
  }

  /** In any state of a run in which nobody else removed an object, verifying the tenant succeeds exactly
      when the objects and the receipts are about the same archives. */
  lemma TenantVerifiesIff(log: seq<Op>, n: nat)
    requires After(log).Some? && n <= |log| && NothingLost(log)
    ensures var v := At(log, n).vault;
            (&& v.objects.Keys == ReceiptIds(v.receipts) && |v.receipts| == |ReceiptIds(v.receipts)|
             && forall id :: id in v.objects ==> Verifies(v, id))
            <==> v.objects.Keys == ReceiptIds(v.receipts)
  {
    RunsStayPaired(log, n);
    PairedVerifiesIff(At(log, n).vault);
  }

  lemma PairedIsIntact(v: Vault, id: ArchiveId)
    requires Authentic(v) && Paired(v)
    ensures id in v.objects && RefFor(v.objects[id]) in v.receipts ==> Verifies(v, id)
    ensures id !in v.objects ==> forall ref :: ref in v.receipts ==> ref.archiveId != id
  {
    if id in v.objects {
      assert IsIntact(id, v.objects[id]);
    }
  }

  /** Repeating a request after a crash: whatever the crash left behind, and unless a write fails again,
      the archive is there with its receipt. */
  method PreserveAgain(v: Vault, ghost log: seq<Op>, ghost n: nat, s: Source, now: nat, actor: nat, purpose: nat)
    returns (store: PreservationStore, outcome: Outcome)
    requires After(log).Some? && n <= |log| && NothingLost(log) && v == At(log, n).vault && ValidSource(s)
    ensures store.Valid() && Paired(Vault(store.objects, store.receipts))
            && OnlyAdds(v, Vault(store.objects, store.receipts))
    ensures Verifies(Vault(store.objects, store.receipts), ArchiveIdFor(s))
    ensures if ArchiveIdFor(s) !in v.objects then outcome.Archived?
            else if RefFor(v.objects[ArchiveIdFor(s)]) !in v.receipts then outcome.Recovered?
            else outcome.Duplicate?
  {
    ghost var crashed := log[..n] + [Crash];
    PrefixRuns(Start(), Step, log, n);
    RunMore(Start(), Step, log[..n], Crash);
    RunsStayPaired(log, n);
    PairedIsIntact(v, ArchiveIdFor(s));
    store := new PreservationStore(v, crashed);
    outcome := store.Preserve(s, now, actor, purpose, false, false);
    SinceThen(crashed, store.log);
  }

  lemma SinceThen(earlier: seq<Op>, log: seq<Op>)
    requires earlier <= log && After(log).Some? && After(earlier).Some? && NothingLost(log)
    ensures Paired(After(log).value.vault) && OnlyAdds(After(earlier).value.vault, After(log).value.vault)
  {
    RunsStayPaired(log, |log|);
    CommittedForever(log, |earlier|, |log|);
    assert log[..|log|] == log && log[..|earlier|] == earlier;
  }
}
