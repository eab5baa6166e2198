/**
 The coordinated write of src/coordination/coordinatedRegistry.js as an interleaving of many
 processes: each acquires the lease, checks it twice, loads the newest snapshot, saves any number of
 descendants of it under its token, checks the lease twice more, and only then returns.

 Any step of any process may follow any step of another. A process may stall (take no step), die
 without releasing, or give up and release; time passes in arbitrary jumps.
 */
module WriteProtocol {
  import opened Prelude
  import opened Lease
  import opened FencedStore

  datatype Config = Config(leaseMs: nat, keep: nat, base: Snapshot)

  /** Where a process is inside the registry operation it runs under the lease. */
  datatype Io =
    | Ready
    | Listed(newest: Option<nat>)     // versions listed for a load, file not read yet
    | Checked(next: Snapshot)         // fence check passed, version file not renamed yet
    | Written                         // version file in place, nothing pruned yet
    | Pruning(doomed: set<nat>)       // pruning this listing, one deletion at a time

  datatype Stage = Entering(checks: nat) | Operating(io: Io) | Leaving(checks: nat) | Acknowledged

  datatype Write = Write(id: Identity, stage: Stage, view: Option<Snapshot>, saved: Option<Snapshot>)

  datatype Saved = Saved(token: nat, snapshot: Snapshot)

  /** The shared disk and the running writes, followed by what an observer has seen so far: tokens
      granted, version files written, the last one of each token, the last one of each token that was
      renamed while no later token had been drawn, and what was acknowledged. */
  datatype System = System(
    lease: Disk,
    versions: Versions,
    clock: int,
    writes: map<nat, Write>,
    granted: seq<nat>,
    saves: set<Saved>,
    last: Versions,
    firm: Versions,
    acked: Versions)

  /** What a process does inside a write it has begun. */
  datatype Action =
    | AssertValid
    | ListForLoad
    | LoadFile
    | CheckFence(edit: nat)
    | RenameVersion
    | ListForPrune
    | DeleteVersion(token: nat, removed: bool)
    | EndPrune
    | Finish

  datatype Step =
    | Tick(ms: nat)
    | Acquire(p: nat, owner: string)
    | AcquireFails(counted: bool, leftover: bool)   // dies or throws around the counter write
    | TakeOver
    | Heartbeat(p: nat)
    | Release(p: nat)
    | Crash(p: nat)
    | Act(p: nat, action: Action)

  ghost predicate Enabled(c: Config, s: System, step: Step) {
    match step
    case Tick(_) => true
    case Acquire(p, _) => p !in s.writes && s.lease.dir.Absent?
    case AcquireFails(_, _) => s.lease.dir.Absent?
    case TakeOver => IsStale(s.lease.dir, s.clock, c.leaseMs)
    case Heartbeat(p) => p in s.writes && Holds(s.lease.dir, s.writes[p].id, s.clock)
    case Release(p) => p in s.writes
    case Crash(p) => p in s.writes
    case Act(p, action) => p in s.writes && CanAct(s, s.writes[p], action)
  }

  ghost function Next(c: Config, s: System, step: Step): System
    requires Enabled(c, s, step)
  {
    match step
    case Tick(ms) => s.(clock := s.clock + ms)
    case Acquire(p, owner) =>
      var lease := Take(s.lease, owner, s.clock, c.leaseMs);
      s.(lease := lease, granted := s.granted + [lease.fence],
         writes := s.writes[p := Write(lease.dir.record.id, Entering(0), None, None)])
    case AcquireFails(counted, leftover) =>
      s.(lease := Disk(if leftover then Ownerless(s.clock) else Absent,
                       if counted then s.lease.fence + 1 else s.lease.fence))
    case TakeOver => s.(lease := Evict(s.lease))
    case Heartbeat(p) => s.(lease := Renew(s.lease, s.writes[p].id, s.clock, c.leaseMs))
    case Release(p) => s.(lease := Drop(s.lease, s.writes[p].id), writes := s.writes - {p})
    case Crash(p) => s.(writes := s.writes - {p})
    case Act(p, action) =>
      var w := s.writes[p];
      var w' := Acted(c, s, w, action);
      s.(writes := s.writes[p := w'],
         versions :=
           match action
           case RenameVersion => s.versions[w.id.token := w'.saved.value]
           case DeleteVersion(token, removed) => if removed then s.versions - {token} else s.versions
           case _ => s.versions,
         saves := if action.RenameVersion? then s.saves + {Saved(w.id.token, w'.saved.value)} else s.saves,
         last := if action.RenameVersion? then s.last[w.id.token := w'.saved.value] else s.last,
         firm := if action.RenameVersion? && w.id.token == s.lease.fence then s.firm[w.id.token := w'.saved.value]
           else s.firm,
         acked := if w'.stage.Acknowledged? && w.saved.Some? then s.acked[w.id.token := w.saved.value] else s.acked)
  }

  ghost predicate CanAct(s: System, w: Write, action: Action) {
    match action
    case AssertValid => Holds(s.lease.dir, w.id, s.clock) && (w.stage.Entering? || w.stage.Leaving?)
    case ListForLoad => w.stage == Operating(Ready)
    case LoadFile => w.stage.Operating? && w.stage.io.Listed?
    case CheckFence(_) =>
      && w.stage == Operating(Ready) && w.view.Some?
      && forall t :: t in s.versions ==> t <= w.id.token
    case RenameVersion => w.stage.Operating? && w.stage.io.Checked?
    case ListForPrune => w.stage == Operating(Written)
    case DeleteVersion(token, _) => w.stage.Operating? && w.stage.io.Pruning? && token in w.stage.io.doomed
    case EndPrune => w.stage == Operating(Pruning({}))
    case Finish => w.stage == Operating(Ready)
  }

  /** The process's own state after the action. Two checks guard the operation and two more follow
      it; passing the last one acknowledges the write. A listed file may be gone when it is read: that load
      throws, and leaves the process without a view. */
  ghost function Acted(c: Config, s: System, w: Write, action: Action): (w': Write)
    requires CanAct(s, w, action)
    ensures w'.id == w.id
    ensures action.RenameVersion? ==> w'.saved == Some(w.stage.io.next)
    ensures !action.RenameVersion? ==> w'.saved == w.saved
    ensures w'.stage.Acknowledged? <==> action.AssertValid? && w.stage.Leaving? && w.stage.checks > 0
  {
    match action
    case AssertValid =>
      w.(stage := match w.stage
                  case Entering(checks) => if checks == 0 then Entering(1) else Operating(Ready)
                  case Leaving(checks) => if checks == 0 then Leaving(1) else Acknowledged
                  case _ => w.stage)
    case ListForLoad => w.(stage := Operating(Listed(Newest(s.versions.Keys))))
    case LoadFile =>
      w.(stage := Operating(Ready),
         view := match w.stage.io.newest
                 case None => Some(c.base)
                 case Some(t) => if t in s.versions then Some(s.versions[t]) else None)
    case CheckFence(edit) => w.(stage := Operating(Checked(w.view.value + [edit])))
    case RenameVersion =>
      w.(stage := Operating(Written), view := Some(w.stage.io.next), saved := Some(w.stage.io.next))
    case ListForPrune => w.(stage := Operating(Pruning(Doomed(s.versions.Keys, c.keep))))
    case DeleteVersion(token, _) => w.(stage := Operating(Pruning(w.stage.io.doomed - {token})))
    case EndPrune => w.(stage := Operating(Ready))
    case Finish => w.(stage := Leaving(0))
  }

  ghost predicate Init(s: System) {
    && s.lease == Disk(Absent, 0)
    && s.versions == s.last == s.firm == s.acked == map[]
    && s.writes == map[]
    && s.granted == [] && s.saves == {}
  }

  // ----- what the steps mean -----

  /** What each step that concerns the lease needs, and what it does to the directory and the counter. */
  lemma LeaseStepMeans(c: Config, s: System, step: Step)
    ensures match step
            case Acquire(p, _) => Enabled(c, s, step) <==> p !in s.writes && s.lease.dir == Absent
            case AcquireFails(_, _) => Enabled(c, s, step) <==> s.lease.dir == Absent
            case TakeOver =>
              Enabled(c, s, step) <==>
                || (s.lease.dir.Ownerless? && s.lease.dir.since + c.leaseMs <= s.clock)
                || (s.lease.dir.Owned? && s.lease.dir.record.expiresAt <= s.clock)
            case Release(p) => Enabled(c, s, step) <==> p in s.writes
            case Crash(p) => Enabled(c, s, step) <==> p in s.writes
            case _ => true
    ensures Enabled(c, s, step) ==>
              var s' := Next(c, s, step);
              match step
              case Acquire(p, owner) =>
                var id := Identity(owner, s.lease.fence + 1);
                && s'.lease == Disk(Owned(OwnerRecord(id, s.clock + c.leaseMs)), s.lease.fence + 1)
                && s'.writes == s.writes[p := Write(id, Entering(0), None, None)]
                && s'.granted == s.granted + [s.lease.fence + 1]
              case AcquireFails(counted, leftover) =>
                && s'.lease.fence == s.lease.fence + (if counted then 1 else 0)
                && s'.lease.dir == (if leftover then Ownerless(s.clock) else Absent)
                && s'.writes == s.writes
              case TakeOver => s'.lease == Disk(Absent, s.lease.fence) && s'.writes == s.writes
              case Release(p) =>
                && p !in s'.writes && s'.lease.fence == s.lease.fence
                && s'.lease.dir == if SameLease(s.lease.dir, s.writes[p].id) then Absent else s.lease.dir
              case Crash(p) => p !in s'.writes && s'.lease == s.lease
              case _ => s'.lease.fence == s.lease.fence
  {
  }

  /** What each step does to the version files: a rename puts the checked snapshot there, a deletion that succeeds takes
      the named file away, and nothing else touches them. */
  lemma StoreStepMeans(c: Config, s: System, step: Step, t: nat)
    requires Enabled(c, s, step)
    ensures var s' := Next(c, s, step);
            if step.Act? && step.action.RenameVersion? && t == s.writes[step.p].id.token then
              t in s'.versions && s.writes[step.p].stage == Operating(Checked(s'.versions[t]))
            else if step.Act? && step.action == DeleteVersion(t, true) then
              t !in s'.versions
            else
              (t in s'.versions <==> t in s.versions) && (t in s.versions ==> s'.versions[t] == s.versions[t])
  {
  }

  /** Two checks stand between taking the lease and the operation, and two more between the operation and returning. */
  lemma ChecksAround(c: Config, s: System, w: Write)
    requires Holds(s.lease.dir, w.id, s.clock)
    ensures w.stage == Entering(0) ==>
              var w1 := Acted(c, s, w, AssertValid);
              w1.stage.Entering? && Acted(c, s, w1, AssertValid).stage == Operating(Ready)
    ensures w.stage == Operating(Ready) ==>
              var w0 := Acted(c, s, w, Finish);
              && w0.stage.Leaving?
              && var w1 := Acted(c, s, w0, AssertValid);
                 w1.stage.Leaving? && Acted(c, s, w1, AssertValid).stage.Acknowledged?
  {
  }

  // ----- tokens -----

  /** While the directory is owned nobody can draw a token, so its owner has the newest one. */
  ghost predicate TokensInv(s: System) {
    && (s.lease.dir.Owned? ==> s.lease.dir.record.id.token == s.lease.fence)
    && (forall p :: p in s.writes ==> s.writes[p].id.token <= s.lease.fence)
    && (forall p, q :: p in s.writes && q in s.writes && p != q ==> s.writes[p].id.token != s.writes[q].id.token)
    && HistoryBelow(s, s.lease.fence)
    && (forall save :: save in s.saves ==> save.token <= s.lease.fence)
  }

  ghost predicate HistoryBelow(s: System, fence: nat) {
    && Ascending(s.granted)
    && (forall t :: t in s.granted ==> t <= fence)
    && (forall t :: t in s.last ==> t <= fence)
    && (forall t :: t in s.acked ==> t <= fence)
  }

  lemma GrantKeepsHistory(s: System, s': System, fence: nat)
    requires HistoryBelow(s, fence)
    requires s'.granted == s.granted + [fence + 1] && s'.last == s.last && s'.acked == s.acked
    ensures HistoryBelow(s', fence + 1)
  {
    assert forall i :: 0 <= i < |s.granted| ==> s.granted[i] in s.granted;
  }

  lemma TokensStep(c: Config, s: System, step: Step)
    requires Enabled(c, s, step) && TokensInv(s)
    ensures TokensInv(Next(c, s, step))
  {
    if step.Acquire? {
      GrantKeepsHistory(s, Next(c, s, step), s.lease.fence);
    }
  }

  // ----- the version directory -----

  ghost predicate Outdated(t: nat, tokens: set<nat>) {
    exists u :: u in tokens && t < u
  }

  /** Every saved version is still on disk with its last content, or some later token has saved. */
  ghost predicate StoreInv(s: System) {
    && (forall t :: t in s.versions ==> t in s.last && s.versions[t] == s.last[t])
    && (forall t {:trigger Outdated(t, s.last.Keys)} ::
          t in s.last ==> t in s.versions || Outdated(t, s.last.Keys))
    && (forall t :: t in s.last ==> Saved(t, s.last[t]) in s.saves)
    && (forall p :: p in s.writes ==> WriteStoreInv(s.last, s.writes[p]))
  }

  ghost predicate WriteStoreInv(last: Versions, w: Write) {
    && (w.saved.Some? ==> w.id.token in last && last[w.id.token] == w.saved.value)
    && (w.stage.Operating? && w.stage.io.Pruning? ==>
          forall d :: d in w.stage.io.doomed ==> Outdated(d, last.Keys))
  }

  lemma RenameKeepsStore(c: Config, s: System, p: nat)
    requires Enabled(c, s, Act(p, RenameVersion)) && TokensInv(s) && StoreInv(s)
    ensures StoreInv(Next(c, s, Act(p, RenameVersion)))
  {
    var s' := Next(c, s, Act(p, RenameVersion));
    var token := s.writes[p].id.token;
    forall t: nat | Outdated(t, s.last.Keys) ensures Outdated(t, s'.last.Keys) {
      var u :| u in s.last.Keys && t < u;
      assert u in s'.last.Keys;
    }
    forall q | q in s'.writes ensures WriteStoreInv(s'.last, s'.writes[q]) {
      if q != p {
        assert WriteStoreInv(s.last, s.writes[q]);
        assert s.writes[q].id.token != token;
      }
    }
  }

  lemma PruneListKeepsStore(c: Config, s: System, p: nat)
    requires Enabled(c, s, Act(p, ListForPrune)) && StoreInv(s) && c.keep >= 1
    ensures StoreInv(Next(c, s, Act(p, ListForPrune)))
  {
    forall d | d in Doomed(s.versions.Keys, c.keep) ensures Outdated(d, s.last.Keys) {
      NewestNotDoomed(s.versions.Keys, c.keep, d);
    }
  }

  lemma StoreStep(c: Config, s: System, step: Step)
    requires Enabled(c, s, step) && TokensInv(s) && StoreInv(s) && c.keep >= 1
    ensures StoreInv(Next(c, s, step))
  {
    if step.Act? && step.action.RenameVersion? {
      RenameKeepsStore(c, s, step.p);
    } else if step.Act? && step.action.ListForPrune? {
      PruneListKeepsStore(c, s, step.p);
    } else {
      var s' := Next(c, s, step);
      forall q | q in s'.writes ensures WriteStoreInv(s'.last, s'.writes[q]) {
        assert q in s.writes ==> WriteStoreInv(s.last, s.writes[q]);
      }
      if step.Act? {
        assert WriteStoreInv(s.last, s.writes[step.p]);
      }
    }
  }

  // ----- firm saves -----

  /** A save renamed under the newest token drawn is firm: everything this token or a later one has
      loaded, checked or saved since carries it. */
  ghost predicate FirmInv(s: System) {
    && (forall t :: t in s.firm ==> t in s.last && s.firm[t] <= s.last[t])
    && (forall t :: t in s.last && t == s.lease.fence ==> t in s.firm && s.firm[t] == s.last[t])
    && (forall t, save :: t in s.firm && save in s.saves && t < save.token ==> s.firm[t] <= save.snapshot)
    && (forall t, p :: t in s.firm && p in s.writes ==> WriteFirmInv(t, s.firm[t], s.writes[p]))
  }

  ghost predicate WriteFirmInv(t: nat, snapshot: Snapshot, w: Write) {
    t <= w.id.token ==>
      && (w.view.Some? ==> snapshot <= w.view.value)
      && (w.stage.Operating? ==>
            match w.stage.io
            case Listed(newest) => newest.Some? && t <= newest.value
            case Checked(next) => snapshot <= next
            case _ => true)
  }

  /** Whatever is on disk under the token or a later one carries the firm save. */
  lemma DiskCarriesFirm(s: System, t: nat, w: nat)
    requires StoreInv(s) && FirmInv(s)
    requires t in s.firm && w in s.versions && t <= w
    ensures s.firm[t] <= s.versions[w]
  {
    if w != t {
      assert Saved(w, s.last[w]) in s.saves;
    }
  }

  /** A listing taken after a save shows that save's version or a later one. */
  lemma ListingShowsSave(s: System, t: nat)
    requires StoreInv(s) && t in s.last
    ensures Newest(s.versions.Keys).Some? && t <= Newest(s.versions.Keys).value
  {
    var top := Newest(s.last.Keys).value;
    assert !Outdated(top, s.last.Keys);
    assert top in s.versions.Keys;
  }

  lemma ListKeepsFirm(c: Config, s: System, w: Write, t: nat)
    requires CanAct(s, w, ListForLoad)
    requires t in s.firm && WriteFirmInv(t, s.firm[t], w)
    requires StoreInv(s) && t in s.last
    ensures WriteFirmInv(t, s.firm[t], Acted(c, s, w, ListForLoad))
  {
    ListingShowsSave(s, t);
  }

  lemma LoadKeepsFirm(c: Config, s: System, w: Write, t: nat)
    requires CanAct(s, w, LoadFile)
    requires t in s.firm && WriteFirmInv(t, s.firm[t], w)
    requires forall u :: u in s.versions && t <= u ==> s.firm[t] <= s.versions[u]
    ensures WriteFirmInv(t, s.firm[t], Acted(c, s, w, LoadFile))
  {
  }

  lemma OtherKeepsFirm(c: Config, s: System, w: Write, action: Action, t: nat)
    requires CanAct(s, w, action) && !action.ListForLoad? && !action.LoadFile?
    requires t in s.firm && WriteFirmInv(t, s.firm[t], w)
    ensures WriteFirmInv(t, s.firm[t], Acted(c, s, w, action))
  {
  }

  lemma ActKeepsFirm(c: Config, s: System, w: Write, action: Action, t: nat)
    requires CanAct(s, w, action)
    requires t in s.firm && WriteFirmInv(t, s.firm[t], w)
    requires StoreInv(s) && FirmInv(s)
    ensures WriteFirmInv(t, s.firm[t], Acted(c, s, w, action))
  {
    if action.ListForLoad? {
      ListKeepsFirm(c, s, w, t);
    } else if action.LoadFile? {
      forall u | u in s.versions && t <= u ensures s.firm[t] <= s.versions[u] {
        DiskCarriesFirm(s, t, u);
      }
      LoadKeepsFirm(c, s, w, t);
    } else {
      OtherKeepsFirm(c, s, w, action, t);
    }
  }

  lemma WritesKeepFirm(c: Config, s: System, p: nat, action: Action, t: nat, q: nat)
    requires Enabled(c, s, Act(p, action)) && TokensInv(s) && StoreInv(s) && FirmInv(s)
    requires t in s.firm && q in s.writes
    ensures WriteFirmInv(t, s.firm[t], Next(c, s, Act(p, action)).writes[q])
  {
    assert WriteFirmInv(t, s.firm[t], s.writes[q]);
    if q == p {
      ActKeepsFirm(c, s, s.writes[p], action, t);
    }
  }

  /** `s'` is `s` after the write `p` renamed this snapshot into place. */
  ghost predicate Renamed(s: System, s': System, p: nat, next: Snapshot) {
    && p in s.writes && s'.lease == s.lease && s'.acked == s.acked
    && var token := s.writes[p].id.token;
       && s'.versions == s.versions[token := next] && s'.last == s.last[token := next]
       && s'.saves == s.saves + {Saved(token, next)}
       && s'.firm == (if token == s.lease.fence then s.firm[token := next] else s.firm)
       && s'.writes == s.writes[p := s.writes[p].(stage := Operating(Written), view := Some(next), saved := Some(next))]
  }

  lemma RenameEffect(c: Config, s: System, p: nat)
    requires Enabled(c, s, Act(p, RenameVersion))
    ensures s.writes[p].stage.Operating? && s.writes[p].stage.io.Checked?
    ensures Renamed(s, Next(c, s, Act(p, RenameVersion)), p, s.writes[p].stage.io.next)
  {
  }

  /** A save carries every firm save up to its token; under the newest token it becomes firm itself. */
  lemma FirmAfterRename(s: System, s': System, p: nat, next: Snapshot)
    requires TokensInv(s) && FirmInv(s) && Renamed(s, s', p, next)
    requires s.writes[p].stage == Operating(Checked(next))
    ensures FirmInv(s')
    ensures forall t :: t in s.firm && t <= s.writes[p].id.token ==> s.firm[t] <= next
  {
    var w := s.writes[p];
    forall t | t in s.firm ensures t <= w.id.token ==> s.firm[t] <= next {
      assert WriteFirmInv(t, s.firm[t], w);
    }
    forall t, save | t in s'.firm && save in s'.saves && t < save.token ensures s'.firm[t] <= save.snapshot {
      assert save in s.saves || save == Saved(w.id.token, next);
    }
    forall t, q | t in s'.firm && q in s'.writes ensures WriteFirmInv(t, s'.firm[t], s'.writes[q]) {
      assert t in s.firm ==> WriteFirmInv(t, s.firm[t], s.writes[q]);
    }
  }

  lemma RenameKeepsFirm(c: Config, s: System, p: nat)
    requires Enabled(c, s, Act(p, RenameVersion)) && TokensInv(s) && FirmInv(s)
    ensures FirmInv(Next(c, s, Act(p, RenameVersion)))
  {
    RenameEffect(c, s, p);
    FirmAfterRename(s, Next(c, s, Act(p, RenameVersion)), p, s.writes[p].stage.io.next);
  }

  /** A step that saves nothing leaves the firm saves firm, if it does so for every write. */
  lemma FirmUntouched(s: System, s': System)
    requires TokensInv(s) && FirmInv(s)
    requires s'.firm == s.firm && s'.last == s.last && s'.saves == s.saves && s'.lease.fence >= s.lease.fence
    requires forall t, q :: t in s'.firm && q in s'.writes ==> WriteFirmInv(t, s'.firm[t], s'.writes[q])
    ensures FirmInv(s')
  {
  }

  lemma ActionKeepsFirm(c: Config, s: System, p: nat, action: Action)
    requires Enabled(c, s, Act(p, action)) && !action.RenameVersion? && TokensInv(s) && StoreInv(s) && FirmInv(s)
    ensures FirmInv(Next(c, s, Act(p, action)))
  {
    var s' := Next(c, s, Act(p, action));
    forall t, q | t in s'.firm && q in s'.writes ensures WriteFirmInv(t, s'.firm[t], s'.writes[q]) {
      WritesKeepFirm(c, s, p, action, t, q);
    }
    FirmUntouched(s, s');
  }

  lemma FirmStep(c: Config, s: System, step: Step)
    requires Enabled(c, s, step) && TokensInv(s) && StoreInv(s) && FirmInv(s)
    ensures FirmInv(Next(c, s, step))
  {
    if step.Act? && step.action.RenameVersion? {
      RenameKeepsFirm(c, s, step.p);
    } else if step.Act? {
      ActionKeepsFirm(c, s, step.p, step.action);
    } else {
      var s' := Next(c, s, step);
      forall t, q | t in s'.firm && q in s'.writes ensures WriteFirmInv(t, s'.firm[t], s'.writes[q]) {
        if q in s.writes {
          assert WriteFirmInv(t, s.firm[t], s.writes[q]);
        }
      }
      FirmUntouched(s, s');
    }
  }

  // ----- acknowledged writes -----

  /** An acknowledged write is firm, and its process saves no more. */
  ghost predicate AckInv(s: System) {
    && (forall t :: t in s.acked ==> t in s.firm && s.firm[t] == s.acked[t])
    && (forall t, p :: t in s.acked && p in s.writes && s.writes[p].id.token == t ==> s.writes[p].stage.Acknowledged?)
  }

  /** No later token exists when a write is acknowledged: its owner still has the newest one. */
  lemma AcknowledgedIsNewest(s: System, w: Write)
    requires TokensInv(s) && CanAct(s, w, AssertValid)
    ensures w.id.token == s.lease.fence
    ensures forall q :: q in s.writes ==> s.writes[q].id.token <= w.id.token
    ensures forall save :: save in s.saves ==> save.token <= w.id.token
  {
    assert w.id.token == s.lease.fence;
  }

  /** `s'` is `s` after the write `p` passed its last check. */
  ghost predicate Returned(s: System, s': System, p: nat) {
    && p in s.writes && s'.firm == s.firm
    && var w := s.writes[p];
       && s'.acked == (if w.saved.Some? then s.acked[w.id.token := w.saved.value] else s.acked)
       && s'.writes == s.writes[p := w.(stage := Acknowledged)]
  }

  lemma ReturnedKeepsAck(s: System, s': System, p: nat)
    requires TokensInv(s) && StoreInv(s) && FirmInv(s) && AckInv(s) && Returned(s, s', p)
    requires s.writes[p].id.token == s.lease.fence
    ensures AckInv(s')
  {
    assert WriteStoreInv(s.last, s.writes[p]);
  }

  lemma ReturnEffect(c: Config, s: System, p: nat)
    requires Enabled(c, s, Act(p, AssertValid)) && Next(c, s, Act(p, AssertValid)).writes[p].stage.Acknowledged?
    ensures Returned(s, Next(c, s, Act(p, AssertValid)), p)
  {
  }

  lemma AcknowledgeKeepsAck(c: Config, s: System, p: nat)
    requires Enabled(c, s, Act(p, AssertValid)) && TokensInv(s) && StoreInv(s) && FirmInv(s) && AckInv(s)
    requires Next(c, s, Act(p, AssertValid)).writes[p].stage.Acknowledged?
    ensures AckInv(Next(c, s, Act(p, AssertValid)))
  {
    AcknowledgedIsNewest(s, s.writes[p]);
    ReturnEffect(c, s, p);
    ReturnedKeepsAck(s, Next(c, s, Act(p, AssertValid)), p);
  }

  lemma AckUntouched(s: System, s': System)
    requires AckInv(s) && s'.acked == s.acked
    requires forall t :: t in s.acked ==> t in s'.firm && s'.firm[t] == s.firm[t]
    requires forall q :: q in s'.writes && s'.writes[q].id.token in s.acked ==> s'.writes[q].stage.Acknowledged?
    ensures AckInv(s')
  {
  }

  lemma ActionKeepsAck(c: Config, s: System, p: nat, action: Action)
    requires Enabled(c, s, Act(p, action)) && AckInv(s)
    requires !Next(c, s, Act(p, action)).writes[p].stage.Acknowledged?
    ensures AckInv(Next(c, s, Act(p, action)))
  {
    assert s.writes[p].id.token !in s.acked;
    AckUntouched(s, Next(c, s, Act(p, action)));
  }

  lemma AckStep(c: Config, s: System, step: Step)
    requires Enabled(c, s, step) && TokensInv(s) && StoreInv(s) && FirmInv(s) && AckInv(s)
    ensures AckInv(Next(c, s, step))
  {
    if step.Act? && Next(c, s, step).writes[step.p].stage.Acknowledged? {
      AcknowledgeKeepsAck(c, s, step.p);
    } else if step.Act? {
      ActionKeepsAck(c, s, step.p, step.action);
    } else {
      AckUntouched(s, Next(c, s, step));
    }
  }

  // ----- whole runs -----

  ghost predicate Inv(s: System) {
    TokensInv(s) && StoreInv(s) && FirmInv(s) && AckInv(s)
  }

  /** `states` is a run: it starts empty and every state follows from the one before by some step. */
  ghost predicate IsRun(c: Config, states: seq<System>) {
    && states != [] && Init(states[0])
    && forall i :: 0 < i < |states| ==> FollowsAt(c, states, i)
  }

  ghost predicate FollowsAt(c: Config, states: seq<System>, i: int)
    requires 0 < i < |states|
  {
    Follows(c, states[i - 1], states[i])
  }

  ghost predicate Follows(c: Config, s: System, s': System) {
    exists step :: Enabled(c, s, step) && Next(c, s, step) == s'
  }

  lemma {:induction false} RunInv(c: Config, states: seq<System>, i: nat)
    requires IsRun(c, states) && c.keep >= 1 && i < |states|
    ensures Inv(states[i])
  {
    if i > 0 {
      RunInv(c, states, i - 1);
      assert FollowsAt(c, states, i);
      var step :| Enabled(c, states[i - 1], step) && Next(c, states[i - 1], step) == states[i];
      TokensStep(c, states[i - 1], step);
      StoreStep(c, states[i - 1], step);
      FirmStep(c, states[i - 1], step);
      AckStep(c, states[i - 1], step);
    }
  }

  /** What the observer has recorded is never forgotten, a firm save is only ever replaced by one that
      carries it, and an acknowledgement never changes. */
  ghost predicate Grows(s: System, s': System) {
    && s.granted <= s'.granted
    && s.saves <= s'.saves
    && s.last.Keys <= s'.last.Keys
    && (forall t :: t in s.firm ==> t in s'.firm && s.firm[t] <= s'.firm[t])
    && (forall t :: t in s.acked ==> t in s'.acked && s'.acked[t] == s.acked[t])
  }

  lemma RenameGrows(s: System, s': System, p: nat, next: Snapshot)
    requires Inv(s) && Renamed(s, s', p, next) && s.writes[p].stage == Operating(Checked(next))
             && s'.granted == s.granted
    ensures Grows(s, s')
  {
    FirmAfterRename(s, s', p, next);
  }

  lemma StepGrows(c: Config, s: System, step: Step)
    requires Enabled(c, s, step) && Inv(s)
    ensures Grows(s, Next(c, s, step))
  {
    if step.Act? && step.action.RenameVersion? {
      RenameEffect(c, s, step.p);
      RenameGrows(s, Next(c, s, step), step.p, s.writes[step.p].stage.io.next);
    } else if step.Act? {
      ActionGrows(c, s, step.p, step.action);
    }
  }

  lemma ActionGrows(c: Config, s: System, p: nat, action: Action)
    requires Enabled(c, s, Act(p, action)) && !action.RenameVersion? && Inv(s)
    ensures Grows(s, Next(c, s, Act(p, action)))
  {
    var w := s.writes[p];
    assert w.id.token in s.acked ==> w.stage.Acknowledged?;
  }

  lemma {:induction false} RunGrows(c: Config, states: seq<System>, i: nat, j: nat)
    requires IsRun(c, states) && c.keep >= 1 && i <= j < |states|
    ensures Grows(states[i], states[j])
    decreases j
  {
    if i < j {
      RunGrows(c, states, i, j - 1);
      RunInv(c, states, j - 1);
      assert FollowsAt(c, states, j);
      var step :| Enabled(c, states[j - 1], step) && Next(c, states[j - 1], step) == states[j];
      StepGrows(c, states[j - 1], step);
    }
  }

  // ----- main results -----

  /** A save that is renamed while its token is the newest one drawn is never lost, acknowledged or not:
      every snapshot ever saved under a later token descends from it, in this state and in every later
      one, and so does whatever a load finds. */
  lemma FirmSaveNeverLost(c: Config, states: seq<System>, i: nat, j: nat, t: nat)
    requires IsRun(c, states) && c.keep >= 1 && i <= j < |states|
    requires t in states[i].firm
    ensures forall save :: save in states[j].saves && t < save.token ==> states[i].firm[t] <= save.snapshot
    ensures Newest(states[j].versions.Keys).Some?
    ensures states[i].firm[t] <= states[j].versions[Newest(states[j].versions.Keys).value]
  {
    RunGrows(c, states, i, j);
    RunInv(c, states, j);
    ListingShowsSave(states[j], t);
    DiskCarriesFirm(states[j], t, Newest(states[j].versions.Keys).value);
  }

  /** So a save can only be lost when a later token was drawn before its rename. */
  lemma LostSaveWasLate(c: Config, states: seq<System>, i: nat, j: nat, p: nat, save: Saved)
    requires IsRun(c, states) && c.keep >= 1 && i + 1 <= j < |states|
    requires Enabled(c, states[i], Act(p, RenameVersion)) && Next(c, states[i], Act(p, RenameVersion)) == states[i + 1]
    requires save in states[j].saves && states[i].writes[p].id.token < save.token
    requires !(states[i].writes[p].stage.io.next <= save.snapshot)
    ensures states[i].writes[p].id.token < states[i].lease.fence
  {
    RunInv(c, states, i);
    if states[i].writes[p].id.token == states[i].lease.fence {
      FirmSaveNeverLost(c, states, i + 1, j, states[i].writes[p].id.token);
    }
  }

  /** No acknowledged write is lost. Once the write with token `t` has returned normally, every
      snapshot ever saved under a later token descends from what it saved, in this state and in
      every later one, and so does whatever a load finds. */
  lemma NoAcknowledgedWriteLost(c: Config, states: seq<System>, i: nat, j: nat, t: nat)
    requires IsRun(c, states) && c.keep >= 1 && i <= j < |states|
    requires t in states[i].acked
    ensures forall save :: save in states[j].saves && t < save.token ==> states[i].acked[t] <= save.snapshot
    ensures Newest(states[j].versions.Keys).Some?
    ensures states[i].acked[t] <= states[j].versions[Newest(states[j].versions.Keys).value]
  {
    RunInv(c, states, i);
    FirmSaveNeverLost(c, states, i, j, t);
  }

  /** A write is acknowledged with exactly the last snapshot it saved, and only while it still owns
      the unexpired lease. */
  lemma AcknowledgedAsSaved(c: Config, s: System, step: Step, t: nat)
    requires Enabled(c, s, step) && Inv(s)
    requires t in Next(c, s, step).acked && t !in s.acked
    ensures step.Act? && s.writes[step.p].id.token == t
    ensures Holds(s.lease.dir, s.writes[step.p].id, s.clock)
    ensures s.writes[step.p].saved == Some(Next(c, s, step).acked[t])
    ensures t in s.versions && s.versions[t] == Next(c, s, step).acked[t]
  {
    var w := s.writes[step.p];
    assert WriteStoreInv(s.last, w);
    assert w.id.token == s.lease.fence;
    assert !Outdated(t, s.last.Keys);
  }

  /** The newest stored token never decreases, and reading it yields the last save of the highest
      token that has saved, whatever races between fence checks, renames and deletions occur. */
  lemma FencingSurvivesRaces(c: Config, states: seq<System>, i: nat, j: nat)
    requires IsRun(c, states) && c.keep >= 1 && i <= j < |states|
    ensures Newest(states[j].versions.Keys) == Newest(states[j].last.Keys)
    ensures forall t :: IsNewest(t, states[j].versions.Keys) ==> states[j].versions[t] == states[j].last[t]
    ensures Newest(states[i].versions.Keys).Some? ==>
              && Newest(states[j].versions.Keys).Some?
              && Newest(states[i].versions.Keys).value <= Newest(states[j].versions.Keys).value
  {
    RunInv(c, states, j);
    RunGrows(c, states, i, j);
    NewestIsNewestSaved(states[j]);
    RunInv(c, states, i);
    NewestIsNewestSaved(states[i]);
  }

  lemma NewestIsNewestSaved(s: System)
    requires StoreInv(s)
    ensures Newest(s.versions.Keys) == Newest(s.last.Keys)
  {
    if s.last.Keys != {} {
      var top := Newest(s.last.Keys).value;
      assert !Outdated(top, s.last.Keys);
    assert top in s.versions.Keys;
      NewestUnique(top, s.versions.Keys);
    }
  }

  predicate HoldsLease(s: System, p: nat) {
    p in s.writes && Holds(s.lease.dir, s.writes[p].id, s.clock)
  }

  /** Tokens are granted in strictly increasing order, across crashes before and after the counter
      write, and at any moment at most one process passes the lease check. */
  lemma TokensIncreaseAndHolderUnique(c: Config, states: seq<System>, i: nat)
    requires IsRun(c, states) && c.keep >= 1 && i < |states|
    ensures Ascending(states[i].granted)
    ensures forall j :: 0 <= j <= i ==> states[j].granted <= states[i].granted
    ensures forall p, q :: HoldsLease(states[i], p) && HoldsLease(states[i], q) ==> p == q
  {
    RunInv(c, states, i);
    forall j | 0 <= j <= i ensures states[j].granted <= states[i].granted {
      RunGrows(c, states, j, i);
    }
  }

  /** A held lease stays its holder's through whatever others do, until the holder gives it up or dies, or time runs
      past its end. */
  lemma HeldUntilOver(c: Config, s: System, step: Step, p: nat)
    requires c.leaseMs > 0 && Enabled(c, s, step) && TokensInv(s) && HoldsLease(s, p)
    ensures || HoldsLease(Next(c, s, step), p) || step == Release(p) || step == Crash(p)
            || (step.Tick? && s.lease.dir.record.expiresAt <= s.clock + step.ms)
  {
    if step.Release? && step.p != p {
      assert s.writes[step.p].id.token != s.writes[p].id.token;
    }
  }

  // ----- why the final check is needed -----

  lemma RunStep(c: Config, states: seq<System>, step: Step)
    requires IsRun(c, states) && Enabled(c, states[|states| - 1], step)
    ensures IsRun(c, states + [Next(c, states[|states| - 1], step)])
  {
    var next := Next(c, states[|states| - 1], step);
    assert Follows(c, states[|states| - 1], next);
    var longer := states + [next];
    forall i | 0 < i < |longer| ensures FollowsAt(c, longer, i) {
      if i < |states| {
        assert FollowsAt(c, states, i);
        assert longer[i - 1] == states[i - 1] && longer[i] == states[i];
      }
    }
  }

  lemma Continue(c: Config, states: seq<System>, step: Step) returns (longer: seq<System>)
    requires IsRun(c, states) && Enabled(c, states[|states| - 1], step)
    ensures IsRun(c, longer) && longer[|longer| - 1] == Next(c, states[|states| - 1], step)
  {
    RunStep(c, states, step);
    longer := states + [Next(c, states[|states| - 1], step)];
  }

  /** A process takes the free lease, passes its opening checks and loads from an empty directory. */
  lemma EnterAndLoad(c: Config, states: seq<System>, p: nat, owner: string) returns (longer: seq<System>)
    requires IsRun(c, states) && c.leaseMs > 0
    requires var s := states[|states| - 1]; s.lease.dir.Absent? && p !in s.writes && s.versions == map[]
    ensures IsRun(c, longer)
    ensures var s := states[|states| - 1];
            var lease := Take(s.lease, owner, s.clock, c.leaseMs);
            longer[|longer| - 1] ==
              s.(lease := lease, granted := s.granted + [lease.fence],
                 writes := s.writes[p := Write(lease.dir.record.id, Operating(Ready), Some(c.base), None)])
  {
    longer := Continue(c, states, Acquire(p, owner));
    longer := Continue(c, longer, Act(p, AssertValid));
    longer := Continue(c, longer, Act(p, AssertValid));
    longer := Continue(c, longer, Act(p, ListForLoad));
    longer := Continue(c, longer, Act(p, LoadFile));
  }

  lemma StallAndTakeOver(c: Config, states: seq<System>, p: nat, edit: nat) returns (longer: seq<System>)
    requires IsRun(c, states)
    requires var s := states[|states| - 1];
             && p in s.writes && CanAct(s, s.writes[p], CheckFence(edit))
             && SameLease(s.lease.dir, s.writes[p].id) && s.lease.dir.record.expiresAt == s.clock + c.leaseMs
    ensures IsRun(c, longer)
    ensures var s := states[|states| - 1];
            longer[|longer| - 1] ==
              s.(clock := s.clock + c.leaseMs, lease := Evict(s.lease),
                 writes := s.writes[p := s.writes[p].(stage := Operating(Checked(s.writes[p].view.value + [edit])))])
  {
    longer := Continue(c, states, Act(p, CheckFence(edit)));
    longer := Continue(c, longer, Tick(c.leaseMs));
    longer := Continue(c, longer, TakeOver);
  }

  lemma BothSave(c: Config, states: seq<System>, p: nat, q: nat, edit: nat) returns (longer: seq<System>)
    requires IsRun(c, states)
    requires var s := states[|states| - 1];
             && p in s.writes && q in s.writes && s.writes[p].id.token < s.writes[q].id.token
             && CanAct(s, s.writes[p], RenameVersion) && CanAct(s, s.writes[q], CheckFence(edit))
             && s.writes[p].id.token < s.lease.fence && s.writes[p].id.token !in s.firm
             && s.writes[p].id.token !in s.acked
    ensures IsRun(c, longer)
    ensures states[|states| - 1].writes[p].id.token !in longer[|longer| - 1].firm
    ensures states[|states| - 1].writes[p].id.token !in longer[|longer| - 1].acked
    ensures var s := states[|states| - 1];
            && Saved(s.writes[p].id.token, s.writes[p].stage.io.next) in longer[|longer| - 1].saves
            && Saved(s.writes[q].id.token, s.writes[q].view.value + [edit]) in longer[|longer| - 1].saves
  {
    longer := Continue(c, states, Act(p, RenameVersion));
    longer := Continue(c, longer, Act(q, CheckFence(edit)));
    longer := Continue(c, longer, Act(q, RenameVersion));
  }

  /** A process stalls between its fence check and its rename until its lease has been taken over.
      Its save then lands after the successor's load, and the successor's save does not descend from
      it. The stalled process fails its closing check, so this save is never acknowledged. */
  lemma UnacknowledgedSaveMayBeLost() returns (c: Config, states: seq<System>, early: Saved, late: Saved)
    ensures c.keep >= 1 && IsRun(c, states)
    ensures early in states[|states| - 1].saves && late in states[|states| - 1].saves
    ensures early.token < late.token && !(early.snapshot <= late.snapshot)
    ensures early.token !in states[|states| - 1].firm && early.token !in states[|states| - 1].acked
  {
    c := Config(1000, 2, []);
    states := [System(Disk(Absent, 0), map[], 0, map[], [], {}, map[], map[], map[])];
    states := EnterAndLoad(c, states, 0, "a");
    states := StallAndTakeOver(c, states, 0, 7);
    states := EnterAndLoad(c, states, 1, "b");
    states := BothSave(c, states, 0, 1, 8);
    early, late := Saved(1, c.base + [7]), Saved(2, c.base + [8]);
    assert early.snapshot[0] != late.snapshot[0];
  }
}
