/**
 When evidence may be disposed of, told from the log of a custody run alone: which retention date was last
 saved for an item, whether its last hold was released, and whether it is gone already.
 */
module RetentionRules {
  import opened Prelude
  import opened Runs
  import opened Custody

  // ----- what a log says -----

  /** The operation saved at the end of this log: its beginning, when the last step saves the index. */
  function SavedLast(log: seq<Op>): Option<Op> {
    if |log| >= 3 && log[|log| - 1].SaveIndex? then Some(log[|log| - 3]) else None
  }

  /** The retention date the operation gives this item, if it gives one. */
  function DateGiven(op: Op, id: nat): Option<int> {
    match op
    case BeginIngest(ingested, _, retentionUntil, _) => if ingested == id then Some(retentionUntil) else None
    case BeginVersion(extended, _, newRetention, _) => if extended == id then newRetention else None
    case _ => None
  }

  /** The retention date last saved for the item. */
  function LastDate(log: seq<Op>, id: nat): Option<int>
    decreases |log|
  {
    if log == [] then None
    else
      var saved := SavedLast(log);
      if saved.Some? && DateGiven(saved.value, id).Some? then DateGiven(saved.value, id)
      else LastDate(log[..|log| - 1], id)
  }

  /** The item's last hold was placed and not released. */
  predicate UnderHold(log: seq<Op>, id: nat)
    decreases |log|
  {
    if log == [] then false
    else if log[|log| - 1].SetHold? && log[|log| - 1].id == id then log[|log| - 1].active
    else UnderHold(log[..|log| - 1], id)
  }

  /** The item's tombstone was saved. */
  predicate Tombstoned(log: seq<Op>, id: nat) {
    exists i :: 0 <= i < |log| && log[i].SaveTombstone? && log[i].id == id
  }

  // ----- the index says the same -----

  ghost predicate TellsItem(log: seq<Op>, items: Items, id: nat) {
    && (id in items <==> LastDate(log, id).Some?)
    && (id in items ==> LastDate(log, id) == Some(items[id].retentionUntil))
    && (UnderHold(log, id) <==> id in items && items[id].legalHold)
    && (Tombstoned(log, id) <==> id in items && items[id].status.Disposed?)
  }

  ghost predicate TellsIndex(log: seq<Op>, items: Items) {
    forall id: nat :: TellsItem(log, items, id)
  }

  /** The item an operation is about to save has the date it gives, or keeps its own, and keeps its hold. */
  ghost predicate TellsNext(begun: Op, items: Items, id: nat, next: Item) {
    && next.status.Active?
    && (id in items ==> items[id].status.Active?)
    && (next.legalHold <==> id in items && items[id].legalHold)
    && match begun
       case BeginIngest(ingested, _, retentionUntil, _) =>
         ingested == id && id !in items && next.retentionUntil == retentionUntil
       case BeginVersion(extended, _, newRetention, _) =>
         && extended == id && id in items
         && next.retentionUntil == if newRetention.Some? then newRetention.value else items[id].retentionUntil
       case _ => false
  }

  /** An operation under way began one step ago, or two once its content is written. */
  ghost predicate TellsDoing(log: seq<Op>, items: Items, d: Doing) {
    d.Adding? ==>
      if d.written then
        |log| >= 2 && log[|log| - 1].WriteContent? && TellsNext(log[|log| - 2], items, d.key.id, d.next)
      else
        |log| >= 1 && TellsNext(log[|log| - 1], items, d.key.id, d.next)
  }

  ghost predicate Tells(log: seq<Op>, s: System) {
    TellsIndex(log, s.index.items) && TellsDoing(log, s.index.items, s.doing)
  }

  lemma TombstonedMore(log: seq<Op>, op: Op, id: nat)
    ensures Tombstoned(log + [op], id) <==> Tombstoned(log, id) || (op.SaveTombstone? && op.id == id)
  {
    if Tombstoned(log, id) {
      var i :| 0 <= i < |log| && log[i].SaveTombstone? && log[i].id == id;
      assert (log + [op])[i] == log[i];
    }
    assert (log + [op])[|log|] == op;
  }

  lemma ItemMore(log: seq<Op>, op: Op, id: nat)
    ensures UnderHold(log + [op], id) == if op.SetHold? && op.id == id then op.active else UnderHold(log, id)
    ensures LastDate(log + [op], id) ==
            if op.SaveIndex? && |log| >= 2 && DateGiven(log[|log| - 2], id).Some?
            then DateGiven(log[|log| - 2], id) else LastDate(log, id)
  {
    assert (log + [op])[..|log|] == log;
  }

  /** Every step keeps log and index in agreement, item by item. */
  lemma StepTellsItem(log: seq<Op>, s: System, op: Op, id: nat)
    requires Tells(log, s) && SystemInv(s) && Step(s, op).Some?
    ensures TellsItem(log + [op], Step(s, op).value.index.items, id)
  {
    assert TellsItem(log, s.index.items, id);
    TombstonedMore(log, op, id);
    ItemMore(log, op, id);
  }

  lemma StepTells(log: seq<Op>, s: System, op: Op)
    requires Tells(log, s) && SystemInv(s) && Step(s, op).Some?
    ensures Tells(log + [op], Step(s, op).value)
  {
    var s' := Step(s, op).value;
    forall id: nat ensures TellsItem(log + [op], s'.index.items, id) {
      StepTellsItem(log, s, op, id);
    }
  }

  lemma {:induction false} RunTells(eventRetention: nat, log: seq<Op>, n: nat)
    requires After(eventRetention, log).Some? && n <= |log|
    ensures Tells(log[..n], At(eventRetention, log, n))
  {
    if n > 0 {
      RunTells(eventRetention, log, n - 1);
      RunInv(eventRetention, log, n - 1);
      AtNext(eventRetention, log, n - 1);
      StepTells(log[..n - 1], At(eventRetention, log, n - 1), log[n - 1]);
      assert log[..n - 1] + [log[n - 1]] == log[..n];
    }
  }

  // ----- main results -----

  /** Between operations, an item can be disposed of at `now` if and only if the retention date last saved for it has
      come, its last hold, if there was one, was released, and it was not disposed of before. */
  lemma DisposableIff(eventRetention: nat, log: seq<Op>, id: nat, now: int)
    requires After(eventRetention, log).Some? && After(eventRetention, log).value.doing.Idle?
    ensures Step(After(eventRetention, log).value, SaveTombstone(id, now)).Some? <==>
            && LastDate(log, id).Some? && LastDate(log, id).value <= now
            && !UnderHold(log, id) && !Tombstoned(log, id)
  {
    RunTells(eventRetention, log, |log|);
    assert log[..|log|] == log;
    assert TellsItem(log, After(eventRetention, log).value.index.items, id);
  }

  /** So every tombstone of every run was saved at or past the retention date last saved before it, under no hold,
      and once. */
  lemma TombstonesHonourDates(eventRetention: nat, log: seq<Op>, m: nat)
    requires After(eventRetention, log).Some? && m < |log| && log[m].SaveTombstone?
    ensures var id, before := log[m].id, log[..m];
            && LastDate(before, id).Some? && LastDate(before, id).value <= log[m].now
            && !UnderHold(before, id) && !Tombstoned(before, id)
  {
    AtNext(eventRetention, log, m);
    RunTells(eventRetention, log, m);
    assert TellsItem(log[..m], At(eventRetention, log, m).index.items, log[m].id);
  }

  /** In every run retention dates are given ahead of the clock, and under a hold never before the last one saved. */
  lemma DatesAreAhead(eventRetention: nat, log: seq<Op>, i: nat, id: nat)
    requires After(eventRetention, log).Some? && i < |log| && DateGiven(log[i], id).Some?
    ensures DateGiven(log[i], id).value > log[i].now
    ensures log[i].BeginVersion? && UnderHold(log[..i], id) ==>
              LastDate(log[..i], id).Some? && LastDate(log[..i], id).value <= DateGiven(log[i], id).value
  {
    AtNext(eventRetention, log, i);
    RunTells(eventRetention, log, i);
    assert TellsItem(log[..i], At(eventRetention, log, i).index.items, id);
  }
}
