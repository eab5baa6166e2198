/**
 How single disk operations and pruning look through `Find`, one job id at a time.
 */
module ScanJobFiles {
  import opened Prelude
  import opened ScanJobs
  import opened Retention

  function IdsIn(files: Files, dir: State): set<nat> {
    set s | s in files && s.dir == dir :: s.id
  }

  lemma IdsInFind(files: Files, dir: State)
    requires WellPlaced(files)
    ensures forall id :: id in IdsIn(files, dir) <==> Slot(dir, id) in files
    ensures forall id :: id in IdsIn(files, dir) <==> Find(files, id).Some? && Find(files, id).value.dir == dir
  {
    forall id: nat ensures id in IdsIn(files, dir) <==> Slot(dir, id) in files {
      if id in IdsIn(files, dir) {
        var s :| s in files && s.dir == dir && s.id == id;
        assert s == Slot(dir, id);
      }
      assert Slot(dir, id).id == id && Slot(dir, id).dir == dir;
    }
    forall id: nat ensures Slot(dir, id) in files <==> Find(files, id).Some? && Find(files, id).value.dir == dir {
      FindExact(files, Slot(dir, id));
    }
  }

  lemma RewrittenFind(files: Files, slot: Slot, job: Job)
    requires WellPlaced(files) && slot in files && job.id == slot.id && !slot.dir.Completed?
    ensures WellPlaced(files[slot := job])
    ensures forall id ::
              Find(files[slot := job], id) == if id == slot.id then Some(Place(slot.dir, job)) else Find(files, id)
  {
    var files' := files[slot := job];
    forall id: nat ensures Find(files', id) == if id == slot.id then Some(Place(slot.dir, job)) else Find(files, id) {
      if id == slot.id {
        FindExact(files', slot);
      } else {
        FindUnchanged(files, files', id);
      }
    }
  }

  lemma MovedFind(files: Files, slot: Slot)
    requires WellPlaced(files) && slot in files && files[slot].state != slot.dir
    ensures Slot(files[slot].state, slot.id) !in files
    ensures WellPlaced(Moved(files, slot))
    ensures forall id :: Find(Moved(files, slot), id) ==
                         if id == slot.id then Some(Place(files[slot].state, files[slot])) else Find(files, id)
  {
    var files' := Moved(files, slot);
    var target := Slot(files[slot].state, slot.id);
    assert forall s :: s in files' ==> s == target || s in files;
    forall id: nat
      ensures Find(files', id) == if id == slot.id then Some(Place(files[slot].state, files[slot])) else Find(files, id)
    {
      if id == slot.id {
        FindExact(files', target);
      } else {
        FindUnchanged(files, files', id);
      }
    }
  }

  lemma CreatedFind(files: Files, job: Job)
    requires WellPlaced(files) && Find(files, job.id).None? && job.state.Pending?
    ensures forall s :: s in files ==> s.id != job.id
    ensures WellPlaced(files[Slot(Pending, job.id) := job])
    ensures forall id :: Find(files[Slot(Pending, job.id) := job], id) ==
                         if id == job.id then Some(Place(Pending, job)) else Find(files, id)
  {
    var files' := files[Slot(Pending, job.id) := job];
    forall s | s in files ensures s.id != job.id {
      FindExact(files, s);
    }
    forall id: nat ensures Find(files', id) == if id == job.id then Some(Place(Pending, job)) else Find(files, id) {
      if id == job.id {
        FindExact(files', Slot(Pending, id));
      } else {
        FindUnchanged(files, files', id);
      }
    }
  }

  lemma RemovedFind(files: Files, slot: Slot)
    requires WellPlaced(files) && slot in files
    ensures WellPlaced(files - {slot})
    ensures forall id :: Find(files - {slot}, id) == if id == slot.id then None else Find(files, id)
  {
    var files' := files - {slot};
    forall id: nat ensures Find(files', id) == if id == slot.id then None else Find(files, id) {
      if id == slot.id {
        assert forall dir :: Slot(dir, id) !in files';
      } else {
        FindUnchanged(files, files', id);
      }
    }
  }

  // ----- pruning by age -----

  /** The timestamp the retention limit sorts by. */
  function Age(dir: State, j: Job): int {
    var stamp := if dir.Completed? then j.completedAt else j.deadLetteredAt;
    if stamp.Some? then stamp.value else j.updatedAt
  }

  /** The ages of the files in a directory. */
  function AgesIn(files: Files, dir: State): map<nat, int> {
    map s | s in files && s.dir == dir :: s.id := Age(dir, files[s])
  }

  lemma AgesInFiles(files: Files, dir: State)
    ensures forall id: nat :: id in AgesIn(files, dir) <==> Slot(dir, id) in files
    ensures forall id: nat :: id in AgesIn(files, dir) ==> AgesIn(files, dir)[id] == Age(dir, files[Slot(dir, id)])
    ensures AgesIn(files, dir).Keys == IdsIn(files, dir)
  {
    forall id: nat ensures id in AgesIn(files, dir) <==> Slot(dir, id) in files {
      assert Slot(dir, id).id == id && Slot(dir, id).dir == dir;
      if id in AgesIn(files, dir) {
        var s :| s in files && s.dir == dir && s.id == id;
        assert s == Slot(dir, id);
      }
    }
    forall id: nat ensures id in AgesIn(files, dir) <==> id in IdsIn(files, dir) {
      assert Slot(dir, id).id == id && Slot(dir, id).dir == dir;
    }
  }

  /** The jobs a retention limit on a directory drops. */
  function OverLimit(files: Files, dir: State, limit: nat): set<nat> {
    Excess(AgesIn(files, dir), limit)
  }

  ghost predicate SettledIn(files: Files, dir: State) {
    forall s :: s in files && s.dir == dir ==> files[s].state == dir
  }

  // ----- records misplaced among the dead letters -----

  /** The record lies among the dead letters but says another state: a requeueing or a completion wrote it
      there and crashed before its rename. */
  predicate Misplaced(place: Option<Place>) {
    place.Some? && place.value.dir.DeadLetter? && !place.value.job.state.DeadLetter?
  }

  function MisplacedIds(files: Files): set<nat> {
    set s | s in files && s.dir.DeadLetter? && !files[s].state.DeadLetter? :: s.id
  }

  lemma MisplacedFind(files: Files)
    requires WellPlaced(files)
    ensures forall id: nat :: id in MisplacedIds(files) <==> Misplaced(Find(files, id))
    ensures forall id: nat :: id in MisplacedIds(files) ==> Slot(DeadLetter, id) in files
  {
    forall id: nat ensures id in MisplacedIds(files) <==> Misplaced(Find(files, id))
      ensures id in MisplacedIds(files) ==> Slot(DeadLetter, id) in files
    {
      FindExact(files, Slot(DeadLetter, id));
      assert Slot(DeadLetter, id).id == id;
      if id in MisplacedIds(files) {
        var s :| s in files && s.dir.DeadLetter? && !files[s].state.DeadLetter? && s.id == id;
        assert s == Slot(DeadLetter, id);
      }
    }
  }

  lemma MisplacedStep(l: Limits, w: World, op: DiskOp, id: nat)
    requires ValidLimits(l) && WorldInv(l, w) && OpAllowed(l, w, op)
    ensures var was, left := id in MisplacedIds(w.files), id in MisplacedIds(Apply(l, w, op).files);
            && (left <==> (was || id in Strayed(op)) && id !in Returned(op) && id !in Loses(w.files, op))
            && (was ==> id !in Strayed(op))
            && (id in Returned(op) || id in Loses(w.files, op) ==> was)
  {
    var files, files', slot := w.files, Apply(l, w, op).files, Slot(DeadLetter, id);
    MisplacedAt(files, id);
    MisplacedAt(files', id);
    match op
    case Create(job) => assert slot in files' <==> slot in files;
    case Rewrite(_, event) => ChangeKeepsJobInv(l, files[op.slot], event);
    case Replace(_, _) =>
    case Rename(_) => MisplacedRename(files, op.slot, slot);
    case Remove(_) =>
  }

  lemma MisplacedRename(files: Files, moved: Slot, slot: Slot)
    requires moved in files && files[moved].state != moved.dir
    requires forall s, t :: s in files && t in files && s.id == t.id ==> s == t
    ensures var files' := Moved(files, moved);
            if moved == slot then slot !in files'
            else if slot == Slot(files[moved].state, moved.id) then slot in files' && files'[slot].state == slot.dir
              && slot !in files
            else (slot in files' <==> slot in files) && (slot in files ==> files'[slot] == files[slot])
  {
  }

  lemma MisplacedAt(files: Files, id: nat)
    ensures id in MisplacedIds(files) <==>
              Slot(DeadLetter, id) in files && !files[Slot(DeadLetter, id)].state.DeadLetter?
  {
    assert Slot(DeadLetter, id).id == id;
    if id in MisplacedIds(files) {
      var s :| s in files && s.dir.DeadLetter? && !files[s].state.DeadLetter? && s.id == id;
      assert s == Slot(DeadLetter, id);
    }
  }

  lemma CountStep(was: set<nat>, left: set<nat>, lost: multiset<nat>, strayed: multiset<nat>, returned: multiset<nat>,
                  loses: multiset<nat>)
    requires forall id: nat :: id in left <==> (id in was || id in strayed) && id !in returned && id !in loses
    requires forall id: nat :: id in was ==> id !in strayed
    requires forall id: nat :: id in returned || id in loses ==> id in was
    requires forall id: nat :: strayed[id] <= 1 && returned[id] + loses[id] <= 1
    ensures lost + multiset(was) + strayed - returned == lost + loses + multiset(left)
  {
    forall id: nat ensures (lost + multiset(was) + strayed - returned)[id] == (lost + loses + multiset(left))[id] {
      assert id in returned || id in loses ==> id in was;
    }
  }

  /** Every stray is either still misplaced or was lost. */
  lemma {:induction false} StraysAccounted(l: Limits, log: seq<DiskOp>)
    requires ValidLimits(l) && Legal(l, log)
    ensures Strays(log) == Lost(l, log) + multiset(MisplacedIds(Reached(l, log).files))
    decreases |log|
  {
    if log != [] {
      var init, op := log[..|log| - 1], log[|log| - 1];
      StraysAccounted(l, init);
      ReachedInv(l, init);
      var w := Reached(l, init);
      forall id: nat {
        MisplacedStep(l, w, op, id);
      }
      CountStep(MisplacedIds(w.files), MisplacedIds(Apply(l, w, op).files), Lost(l, init), Strayed(op), Returned(op),
                Loses(w.files, op));
    }
  }

  lemma LedgerAccounted(l: Limits, log: seq<DiskOp>, ledger: Ledger)
    requires ValidLimits(l) && Recorded(l, log, ledger)
    ensures ledger.strays == ledger.lost + multiset(MisplacedIds(ledger.world.files))
  {
    RecordedOpen(l, log, ledger);
    StraysAccounted(l, log);
  }

  lemma LedgersAgree(l: Limits, log: seq<DiskOp>, ledger: Ledger, more: seq<DiskOp>, ledger': Ledger)
    requires ValidLimits(l) && Recorded(l, log, ledger) && Recorded(l, more, ledger') && ledger'.strays == ledger.strays
    ensures ledger'.lost + multiset(MisplacedIds(ledger'.world.files)) ==
            ledger.lost + multiset(MisplacedIds(ledger.world.files))
  {
    LedgerAccounted(l, log, ledger);
    LedgerAccounted(l, more, ledger');
  }

  /** A run over files without misplaced records that leaves no stray loses nothing. */
  lemma NoneLost(l: Limits, log: seq<DiskOp>, ledger: Ledger, more: seq<DiskOp>, ledger': Ledger)
    requires ValidLimits(l) && Recorded(l, log, ledger) && Recorded(l, more, ledger') && log <= more
    requires ledger'.strays == ledger.strays && MisplacedIds(ledger.world.files) == {}
    ensures ledger'.lost == ledger.lost && MisplacedIds(ledger'.world.files) == {}
  {
    LedgersAgree(l, log, ledger, more, ledger');
    RecordedOpen(l, log, ledger);
    RecordedOpen(l, more, ledger');
    assert more[..|log|] == log;
    LostGrows(l, more, |log|);
    NoneLeft(ledger.lost, ledger'.lost, MisplacedIds(ledger'.world.files));
  }

  lemma NoneLeft(few: multiset<nat>, many: multiset<nat>, more: set<nat>)
    requires few <= many && many + multiset(more) == few
    ensures few == many && more == {}
  {
    forall id: nat ensures few[id] == many[id] && id !in more {
      assert (many + multiset(more))[id] == many[id] + multiset(more)[id];
    }
  }
}
