/**
 The entitlement registry of src/security/identityEntitlementRegistry.js: a versioned user table and the
 hash chain of changes to it, in one snapshot. Here the chain keeps no head: the next event follows the
 last one kept, or the anchor when none is.
 */
module EntitlementRegistry {
  import opened Prelude
  import opened HashChain

  datatype Action = Created | Updated | Suspended

  datatype Change = Change(subject: nat, action: Action, tenantId: nat, role: nat, active: bool, version: nat)

  datatype User = User(id: nat, tenantId: nat, role: nat, active: bool, version: nat)

  datatype Outcome = Saved(user: User) | VersionConflict | NotFound

  /** What the log says about a subject: its last change. */
  function LastChange(log: seq<Change>, subject: nat): Option<Change> {
    if log == [] then None
    else if log[|log| - 1].subject == subject then Some(log[|log| - 1])
    else LastChange(log[..|log| - 1], subject)
  }

  function ChangesTo(log: seq<Change>, subject: nat): nat {
    if log == [] then 0
    else ChangesTo(log[..|log| - 1], subject) + if log[|log| - 1].subject == subject then 1 else 0
  }

  /** The user row a change leaves behind. */
  predicate Shows(user: User, change: Change) {
    user.tenantId == change.tenantId && user.role == change.role && user.active == change.active
      && user.version == change.version
  }

  /** The user table is the replay of the full log, and a user's version counts the changes to it. */
  ghost predicate IsReplay(users: map<nat, User>, log: seq<Change>) {
    forall subject: nat ::
      && (subject in users <==> LastChange(log, subject).Some?)
      && (subject in users ==>
            && Shows(users[subject], LastChange(log, subject).value)
            && users[subject].version == ChangesTo(log, subject))
  }

  lemma ReplayStep(users: map<nat, User>, log: seq<Change>, user: User, change: Change)
    requires IsReplay(users, log) && Shows(user, change)
    requires change.version == ChangesTo(log, change.subject) + 1
    ensures IsReplay(users[change.subject := user], log + [change])
  {
    assert (log + [change])[..|log|] == log;
    forall subject: nat
      ensures LastChange(log + [change], subject) ==
              if subject == change.subject then Some(change) else LastChange(log, subject)
      ensures ChangesTo(log + [change], subject) == ChangesTo(log, subject) + if subject == change.subject then 1 else 0
    {
    }
  }

  lemma {:induction false} NoChangeNoCount(log: seq<Change>, subject: nat)
    ensures LastChange(log, subject).None? <==> ChangesTo(log, subject) == 0
  {
    if log != [] {
      NoChangeNoCount(log[..|log| - 1], subject);
    }
  }

  /** Optimistic locking: if a user still has the version a caller read, nothing changed it since. */
  lemma {:induction false} SameVersionNoChange(log: seq<Change>, n: nat, subject: nat, k: nat)
    requires n <= k < |log| && ChangesTo(log[..n], subject) == ChangesTo(log, subject)
    ensures log[k].subject != subject
    decreases |log|
  {
    CountGrows(log[..|log| - 1], n, subject);
    assert log[..|log| - 1][..n] == log[..n];
    if k < |log| - 1 {
      SameVersionNoChange(log[..|log| - 1], n, subject, k);
    }
  }

  lemma {:induction false} CountGrows(log: seq<Change>, n: nat, subject: nat)
    requires n <= |log|
    ensures ChangesTo(log[..n], subject) <= ChangesTo(log, subject)
    decreases |log|
  {
    if n < |log| {
      CountGrows(log[..|log| - 1], n, subject);
      assert log[..|log| - 1][..n] == log[..n];
    } else {
      assert log[..n] == log;
    }
  }

  ghost predicate UniqueIds(users: map<nat, User>) {
    forall a, b :: a in users && b in users && users[a].id == users[b].id ==> a == b
  }

  lemma StillUnique(users: map<nat, User>, subject: nat, user: User)
    requires UniqueIds(users) && forall other :: other in users && other != subject ==> users[other].id != user.id
    ensures UniqueIds(users[subject := user])
  {
  }

  class Registry {
    const retention: nat
    var users: map<nat, User>
    var sequence: nat
    var events: seq<Event<Change>>
    var eventAnchorSequence: nat
    var eventAnchorHash: Option<Digest<Change>>
    /** Every change ever made. */
    ghost var recorded: seq<Change>
    /** The chain of all of them, as if nothing had been trimmed. */
    ghost var full: seq<Event<Change>>

    function Start(): Base<Change>
      reads this
    {
      Base(eventAnchorSequence, eventAnchorHash)
    }

    ghost predicate ChainValid()
      reads this
    {
      var dropped := if |full| > retention then |full| - retention else 0;
      && retention > 0
      && IsFull(full, HashBefore(Origin(), full, |full|))
      && events == full[dropped..]
      && Start() == BaseAt(full, dropped)
    }

    ghost predicate Valid()
      reads this
    {
      && ChainValid()
      && Bodies(full, recorded) && sequence == |recorded|
      && IsReplay(users, recorded)
      && UniqueIds(users)
    }

    constructor (retention: nat)
      requires retention > 0
      ensures Valid() && recorded == [] && users == map[]
    {
      this.retention := retention;
      users, sequence, events, eventAnchorSequence, eventAnchorHash, recorded, full := map[], 0, [], 0, None, [], [];
    }

    method AppendEvent(change: Change)
      requires ChainValid()
      modifies this`events, this`eventAnchorSequence, this`eventAnchorHash, this`full
      ensures ChainValid() && |full| == |old(full)| + 1 && old(full) <= full && full[|full| - 1].body == change
    {
      ghost var dropped := |full| - |events|;
      LastKept(full, events, Start());
      var previousHash := if |events| > 0 then Some(events[|events| - 1].hash) else eventAnchorHash;
      var previousSequence := if |events| > 0 then events[|events| - 1].sequence else eventAnchorSequence;
      var event := NewEvent(previousSequence + 1, change, previousHash);
      FullAfterAppend(full, previousHash, event);
      events := events + [event];
      full := full + [event];
      if |events| > retention {
        var cut := |events| - retention;
        var anchor := events[cut - 1];
        KeptAfterCut(full, dropped, events, cut);
        events := events[cut..];
        eventAnchorSequence, eventAnchorHash := anchor.sequence, Some(anchor.hash);
      }
    }

    /** `mutate` around a change: one event, one sequence number, one row. */
    method Save(subject: nat, user: User, action: Action)
      requires Valid() && user.version == ChangesTo(recorded, subject) + 1
      requires forall other :: other in users && other != subject ==> users[other].id != user.id
      modifies this
      ensures Valid() && users == old(users)[subject := user]
      ensures recorded == old(recorded) + [Change(subject, action, user.tenantId, user.role, user.active, user.version)]
    {
      var change := Change(subject, action, user.tenantId, user.role, user.active, user.version);
      AppendEvent(change);
      assert Bodies(full, recorded + [change]);
      ReplayStep(users, recorded, user, change);
      StillUnique(users, subject, user);
      users := users[subject := user];
      recorded := recorded + [change];
      sequence := sequence + 1;
    }

    /** `upsert`: creates or updates, unless the caller expected another version. */
    method Upsert(subject: nat, tenantId: nat, role: nat, active: bool, expectedVersion: Option<int>, freshId: nat)
      returns (outcome: Outcome)
      requires Valid() && forall other :: other in users ==> users[other].id != freshId
      modifies this
      ensures Valid()
      ensures var actual := ChangesTo(old(recorded), subject);
              if expectedVersion.Some? && expectedVersion.value != actual then
                outcome == VersionConflict && recorded == old(recorded) && users == old(users)
              else
                && outcome == Saved(User(if subject in old(users) then old(users)[subject].id else freshId,
                                         tenantId, role, active, actual + 1))
                && users == old(users)[subject := outcome.user]
                && recorded == old(recorded) +
                  [Change(subject, if actual == 0 then Created else Updated, tenantId, role, active, actual + 1)]
    {
      NoChangeNoCount(recorded, subject);
      var existing := subject in users;
      var actual := if existing then users[subject].version else 0;
      if expectedVersion.Some? && expectedVersion.value != actual {
        return VersionConflict;
      }
      var user := User(if existing then users[subject].id else freshId, tenantId, role, active, actual + 1);
      Save(subject, user, if existing then Updated else Created);
      return Saved(user);
    }

    /** `patch`: changes an existing user found by id, unless the caller expected another version. */
    method Patch(id: nat, tenantId: Option<nat>, role: Option<nat>, active: Option<bool>, expectedVersion: Option<int>)
      returns (outcome: Outcome)
      requires Valid()
      modifies this
      ensures Valid()
      ensures outcome == NotFound <==> forall subject :: subject in old(users) ==> old(users)[subject].id != id
      ensures !outcome.Saved? ==> recorded == old(recorded) && users == old(users)
      ensures outcome.Saved? ==>
                (exists subject ::
                   && subject in old(users) && old(users)[subject].id == id
                   && users == old(users)[subject := outcome.user]
                   && outcome.user == Patched(old(users)[subject], tenantId, role, active)
                   && PatchedAs(old(users)[subject], outcome.user, tenantId, role, active)
                   && recorded == old(recorded) + [ChangeFor(subject, outcome.user)]
                   && (expectedVersion.Some? ==> expectedVersion.value == ChangesTo(old(recorded), subject)))
      ensures outcome == VersionConflict ==>
                expectedVersion.Some? &&
                (exists subject ::
                 subject in users && users[subject].id == id && expectedVersion.value != ChangesTo(recorded, subject))
    {
      var subject := FindById(id);
      if subject.None? {
        return NotFound;
      }
      var existing := users[subject.value];
      assert existing.version == ChangesTo(recorded, subject.value);
      if expectedVersion.Some? && expectedVersion.value != existing.version {
        return VersionConflict;
      }
      var next := Patched(existing, tenantId, role, active);
      Save(subject.value, next, if next.active then Updated else Suspended);
      return Saved(next);
    }

    method FindById(id: nat) returns (subject: Option<nat>)
      ensures subject.Some? ==> subject.value in users && users[subject.value].id == id
      ensures subject.None? ==> forall other :: other in users ==> users[other].id != id
    {
      var rest := users.Keys;
      while rest != {}
        invariant rest <= users.Keys
        invariant forall other :: other in users ==> other in rest || users[other].id != id
        decreases rest
      {
        var other :| other in rest;
        if users[other].id == id {
          return Some(other);
        }
        rest := rest - {other};
      }
      return None;
    }

    /** `validateSnapshot`: whether the kept events link back to the anchor. */
    method ValidateSnapshot() returns (ok: bool)
      ensures ok <==> Linked(Start(), events)
    {
      var previousHash, expectedSequence;
      ok, previousHash, expectedSequence := CheckLinks(Start(), events);
    }
  }

  function Patched(user: User, tenantId: Option<nat>, role: Option<nat>, active: Option<bool>): User {
    User(user.id,
         if tenantId.Some? then tenantId.value else user.tenantId,
         if role.Some? then role.value else user.role,
         if active.Some? then active.value else user.active,
         user.version + 1)
  }

  /** A patch changes the fields it gives and leaves the others as they were: no one is moved, promoted or reactivated
      by a patch that does not say so. */
  predicate PatchedAs(was: User, user: User, tenantId: Option<nat>, role: Option<nat>, active: Option<bool>) {
    && user.id == was.id && user.version == was.version + 1
    && (tenantId.None? ==> user.tenantId == was.tenantId) && (tenantId.Some? ==> user.tenantId == tenantId.value)
    && (role.None? ==> user.role == was.role) && (role.Some? ==> user.role == role.value)
    && (active.None? ==> user.active == was.active) && (active.Some? ==> user.active == active.value)
  }

  function ChangeFor(subject: nat, user: User): Change {
    Change(subject, if user.active then Updated else Suspended, user.tenantId, user.role, user.active, user.version)
  }

  ghost predicate Bodies(full: seq<Event<Change>>, recorded: seq<Change>) {
    |full| == |recorded| && forall k :: 0 <= k < |full| ==> full[k].body == recorded[k]
  }

  /** Where the next event finds its predecessor. */
  lemma LastKept(full: seq<Event<Change>>, events: seq<Event<Change>>, start: Base<Change>)
    requires |events| <= |full| && IsFull(full, HashBefore(Origin(), full, |full|))
    requires events == full[|full| - |events|..] && start == BaseAt(full, |full| - |events|)
    ensures HashBefore(start, events, |events|) == HashBefore(Origin(), full, |full|)
    ensures (if |events| > 0 then events[|events| - 1].sequence else start.sequence) == |full|
  {
    assert |full| > 0 ==> Links(Origin(), full, |full| - 1);
  }

  /** After any number of changes the snapshot validates, and its sequence, which counts mutations, is
      also the sequence of the last event: nothing is changed without being logged. */
  lemma SnapshotValidates(registry: Registry)
    requires registry.Valid()
    ensures Linked(registry.Start(), registry.events)
    ensures registry.events != [] ==> registry.events[|registry.events| - 1].sequence == registry.sequence
  {
    var full := registry.full;
    SuffixAccepted(full, HashBefore(Origin(), full, |full|), |full| - |registry.events|);
    LastKept(full, registry.events, registry.Start());
  }

  /** Whoever is in the table has the place, role and standing that the last change to them gave, and nobody else is in
      it. */
  lemma TableTellsLog(registry: Registry, subject: nat)
    requires registry.Valid()
    ensures subject in registry.users <==> LastChange(registry.recorded, subject).Some?
    ensures subject in registry.users ==>
              var user, change := registry.users[subject], LastChange(registry.recorded, subject).value;
              && user.tenantId == change.tenantId && user.role == change.role && user.active == change.active
              && user.version == change.version == ChangesTo(registry.recorded, subject)
  {
    assert IsReplay(registry.users, registry.recorded);
  }
}
