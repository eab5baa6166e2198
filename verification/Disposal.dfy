/**
 What disposition leaves on disk, over whole runs of the custody store: which contents a purge removes
 however it ends, and that nothing about a disposed item changes afterwards.
 */
module Disposal {
  import opened Prelude
  import opened Runs
  import opened Custody
  import H = HashChain

  // ----- after disposition nothing changes -----

  /** The item is disposed, and no operation is on it any more. */
  ghost predicate AtRest(s: System, id: nat) {
    && id in s.index.items && s.index.items[id].status.Disposed?
    && !(s.doing.Purging? && s.doing.item.id == id)
  }

  ghost predicate SameContent(contents: Contents, contents': Contents, id: nat) {
    forall key: Key :: key.id == id ==>
      (key in contents <==> key in contents')
        && (key in contents && key in contents' ==> contents[key] == contents'[key])
  }

  lemma StepLeavesAtRest(s: System, op: Op, id: nat)
    requires SystemInv(s) && Bounded(s) && AtRest(s, id) && Step(s, op).Some?
    ensures var s' := Step(s, op).value;
            AtRest(s', id) && s'.index.items[id] == s.index.items[id] && SameContent(s.contents, s'.contents, id)
  {
    if s.doing.Adding? {
      AddingNext(s);
    }
  }

  /** Nothing comes back to a disposed item: its record, `purgePending` included, and its content never change. */
  lemma {:induction false} DisposedIsFrozen(eventRetention: nat, log: seq<Op>, i: nat, j: nat, id: nat)
    requires After(eventRetention, log).Some? && i <= j <= |log| && AtRest(At(eventRetention, log, i), id)
    ensures var s, s' := At(eventRetention, log, i), At(eventRetention, log, j);
            AtRest(s', id) && s'.index.items[id] == s.index.items[id] && SameContent(s.contents, s'.contents, id)
    decreases j
  {
    if i < j {
      DisposedIsFrozen(eventRetention, log, i, j - 1, id);
      RunInv(eventRetention, log, j - 1);
      RunBounded(eventRetention, log, j - 1);
      AtNext(eventRetention, log, j - 1);
      StepLeavesAtRest(At(eventRetention, log, j - 1), log[j - 1], id);
    }
  }

  // ----- what a purge removes, however it ends -----

  /** Before step `n`, the purge that began with the tombstone at `m` removed the content of its version
      number `v`; a crash may have cut it off any time after. */
  ghost predicate RemovedBy(log: seq<Op>, m: nat, n: nat, v: nat) {
    && 1 <= v && m + v < n <= |log|
    && (forall i :: m < i <= m + v ==> log[i].PurgeContent?)
    && log[m + v].removed
  }

  /** The purge that began at `m` is still going on at step `n`. */
  ghost predicate StillPurging(log: seq<Op>, m: nat, n: nat) {
    m < n <= |log| && forall i :: m < i < n ==> log[i].PurgeContent?
  }

  ghost predicate IsTombstone(log: seq<Op>, m: nat, id: nat) {
    m < |log| && log[m].SaveTombstone? && log[m].id == id
  }

  /** Where the purge is as long as it goes on, and that it is over once something else happened. */
  ghost predicate PurgeProgress(s: System, log: seq<Op>, m: nat, n: nat, id: nat, versions: nat)
    requires m < n
  {
    if StillPurging(log, m, n) then
      && s.doing.Purging? && s.doing.item.id == id && s.doing.done == n - m - 1 <= versions
      && |s.doing.item.versions| == versions
    else
      AtRest(s, id)
  }

  /** Key for key what is left: everything the purge did not get to or failed to remove. */
  ghost predicate LeftAfter(was: Contents, contents: Contents, log: seq<Op>, m: nat, n: nat, id: nat, versions: nat) {
    forall v: nat ::
      var key := Key(id, v);
      && (key in contents <==> key in was && !(v <= versions && RemovedBy(log, m, n, v)))
      && (key in contents && key in was ==> contents[key] == was[key])
  }

  lemma TombstoneOfActive(eventRetention: nat, log: seq<Op>, m: nat, id: nat)
    requires After(eventRetention, log).Some? && IsTombstone(log, m, id)
    ensures var s := At(eventRetention, log, m);
            s.doing.Idle? && MayDispose(s.index.items, id, log[m].now) && SystemInv(s) && Bounded(s)
  {
    AtNext(eventRetention, log, m);
    RunInv(eventRetention, log, m);
    RunBounded(eventRetention, log, m);
  }

  /** In every state after an item's tombstone was saved, crashed into or not, exactly the versions its purge
      has removed so far are gone. */
  lemma {:induction false} ContentAfterTombstone(eventRetention: nat, log: seq<Op>, m: nat, n: nat, id: nat,
                                                 versions: nat)
    requires After(eventRetention, log).Some? && m < n <= |log| && IsTombstone(log, m, id)
    requires id in At(eventRetention, log, m).index.items
    requires versions == |At(eventRetention, log, m).index.items[id].versions|
    ensures PurgeProgress(At(eventRetention, log, n), log, m, n, id, versions)
    ensures LeftAfter(At(eventRetention, log, m).contents, At(eventRetention, log, n).contents, log, m, n, id, versions)
    decreases n
  {
    AtNext(eventRetention, log, n - 1);
    RunInv(eventRetention, log, n - 1);
    if n == m + 1 {
      PurgeBegins(At(eventRetention, log, m), log, m, id);
    } else {
      ContentAfterTombstone(eventRetention, log, m, n - 1, id, versions);
      RunBounded(eventRetention, log, n - 1);
      PurgeStep(At(eventRetention, log, n - 1), log, m, n, id, versions, At(eventRetention, log, m).contents);
    }
  }

  lemma PurgeBegins(s: System, log: seq<Op>, m: nat, id: nat)
    requires SystemInv(s) && IsTombstone(log, m, id) && Step(s, log[m]).Some?
    ensures id in s.index.items
    ensures var s', versions := Step(s, log[m]).value, |s.index.items[id].versions|;
            PurgeProgress(s', log, m, m + 1, id, versions)
              && LeftAfter(s.contents, s'.contents, log, m, m + 1, id, versions)
  {
    assert ItemOk(id, s.index.items[id]);
  }

  lemma PurgeStep(s: System, log: seq<Op>, m: nat, n: nat, id: nat, versions: nat, was: Contents)
    requires SystemInv(s) && Bounded(s) && m + 1 < n <= |log| && Step(s, log[n - 1]).Some?
    requires PurgeProgress(s, log, m, n - 1, id, versions) && LeftAfter(was, s.contents, log, m, n - 1, id, versions)
    ensures PurgeProgress(Step(s, log[n - 1]).value, log, m, n, id, versions)
    ensures LeftAfter(was, Step(s, log[n - 1]).value.contents, log, m, n, id, versions)
  {
    if StillPurging(log, m, n - 1) {
      assert ItemOk(id, s.index.items[id]);
      RemovedNext(log, m, n);
    } else {
      StepLeavesAtRest(s, log[n - 1], id);
      forall v: nat ensures RemovedBy(log, m, n, v) <==> RemovedBy(log, m, n - 1, v) {
      }
    }
  }

  lemma RemovedNext(log: seq<Op>, m: nat, n: nat)
    requires m + 1 < n <= |log| && StillPurging(log, m, n - 1)
    ensures StillPurging(log, m, n) <==> log[n - 1].PurgeContent?
    ensures forall v: nat ::
              RemovedBy(log, m, n, v) <==>
              RemovedBy(log, m, n - 1, v) || (v == n - 1 - m && log[n - 1].PurgeContent? && log[n - 1].removed)
  {
  }

  /** However the purge ended, an item's content is all gone if and only if the purge got through every
      version, no removal failed, and nothing lay behind the listed versions when the tombstone was saved. */
  lemma NothingLeftIff(eventRetention: nat, log: seq<Op>, m: nat, n: nat, id: nat)
    requires After(eventRetention, log).Some? && m < n <= |log| && IsTombstone(log, m, id)
    ensures id in At(eventRetention, log, m).index.items
    ensures var was := At(eventRetention, log, m);
            var versions := |was.index.items[id].versions|;
            NoContent(At(eventRetention, log, n).contents, id)
            <==>
            (forall v: nat :: 1 <= v <= versions ==> RemovedBy(log, m, n, v)) && Key(id, versions + 1) !in was.contents
  {
    TombstoneOfActive(eventRetention, log, m, id);
    var was := At(eventRetention, log, m);
    ContentAfterTombstone(eventRetention, log, m, n, id, |was.index.items[id].versions|);
    LeftIff(was, At(eventRetention, log, n).contents, log, m, n, id);
  }

  lemma LeftIff(was: System, contents: Contents, log: seq<Op>, m: nat, n: nat, id: nat)
    requires SystemInv(was) && Bounded(was) && IsActive(was.index.items, id)
    requires LeftAfter(was.contents, contents, log, m, n, id, |was.index.items[id].versions|)
    ensures var versions := |was.index.items[id].versions|;
            NoContent(contents, id)
            <==>
            (forall v: nat :: 1 <= v <= versions ==> RemovedBy(log, m, n, v)) && Key(id, versions + 1) !in was.contents
  {
    var item := was.index.items[id];
    var versions := |item.versions|;
    assert ItemOk(id, item) && Readable(was.contents, item);
    forall v: nat | 1 <= v <= versions ensures Key(id, v) in contents <==> !RemovedBy(log, m, n, v) {
      assert Holds(was.contents, id, item.versions[v - 1]);
    }
    var next := Key(id, versions + 1);
    assert next in contents <==> next in was.contents;
    forall key | key in contents && key.id == id ensures 1 <= key.version <= versions + 1 {
      assert key == Key(id, key.version) && InBounds(was.index.items, key);
    }
  }

  // ----- what the record says about it -----

  ghost predicate ListedGone(contents: Contents, id: nat, n: nat) {
    forall v: nat :: 1 <= v <= n ==> Key(id, v) !in contents
  }

  /** A disposed item whose purge is recorded as finished has no content at the versions it lists. */
  ghost predicate PurgeRecorded(s: System) {
    && (forall id :: id in s.index.items && s.index.items[id].status.Disposed? && !s.index.items[id].purgePending ==>
          ListedGone(s.contents, id, |s.index.items[id].versions|))
    && (s.doing.Purging? ==>
          s.doing.item.purgePending && (!s.doing.failed ==> ListedGone(s.contents, s.doing.item.id, s.doing.done)))
  }

  lemma StepKeepsRecord(s: System, op: Op)
    requires SystemInv(s) && Bounded(s) && PurgeRecorded(s) && Step(s, op).Some?
    ensures PurgeRecorded(Step(s, op).value)
  {
    var s' := Step(s, op).value;
    if s.doing.Adding? {
      AddingNext(s);
    }
    if s.doing.Purging? {
      assert ItemOk(s.doing.item.id, s.doing.item);
    }
    forall id | id in s'.index.items && s'.index.items[id].status.Disposed? && !s'.index.items[id].purgePending
      ensures ListedGone(s'.contents, id, |s'.index.items[id].versions|)
    {
      if AtRest(s, id) {
        StepLeavesAtRest(s, op, id);
      }
    }
  }

  lemma {:induction false} RunRecorded(eventRetention: nat, log: seq<Op>, n: nat)
    requires After(eventRetention, log).Some? && n <= |log|
    ensures PurgeRecorded(At(eventRetention, log, n))
  {
    if n > 0 {
      RunRecorded(eventRetention, log, n - 1);
      RunInv(eventRetention, log, n - 1);
      RunBounded(eventRetention, log, n - 1);
      AtNext(eventRetention, log, n - 1);
      StepKeepsRecord(At(eventRetention, log, n - 1), log[n - 1]);
    }
  }

  /** In every run, a purge on record means that no listed version has content; all that can be left lies
      right behind them, where an unfinished `addVersion` left it. */
  lemma FinishedPurgeLeaves(eventRetention: nat, log: seq<Op>, n: nat, id: nat)
    requires After(eventRetention, log).Some? && n <= |log|
    requires var items := At(eventRetention, log, n).index.items;
             id in items && items[id].status.Disposed? && !items[id].purgePending
    ensures var s := At(eventRetention, log, n);
            var versions := |s.index.items[id].versions|;
            && ListedGone(s.contents, id, versions)
            && (NoContent(s.contents, id) <==> Key(id, versions + 1) !in s.contents)
  {
    RunRecorded(eventRetention, log, n);
    RunBounded(eventRetention, log, n);
    var s := At(eventRetention, log, n);
    forall key | key in s.contents && key.id == id ensures key == Key(id, |s.index.items[id].versions| + 1) {
      assert key == Key(id, key.version) && InBounds(s.index.items, key);
    }
  }

  // ----- and content does stay -----

  /** A removal fails: the content stays, and the record says so. */
  method FailedRemovalStays(content: Content) returns (store: EvidenceStore)
    ensures fresh(store) && store.Valid() && store.index.items.Keys == {7}
    ensures store.index.items[7].status.Disposed? && store.index.items[7].purgePending
    ensures Key(7, 1) in store.contents
  {
    store := new EvidenceStore(100, Index(map[], H.EmptyChain()), map[], []);
    var ingested := store.Ingest(7, content, 10, 0, false, false, false);
    var disposed := store.Dispose(7, 20, false, {1}, false);
    assert store.index.items.Keys == {7};
  }

  /** Adding a version fails to save the index and then fails to remove the content again: disposition does
      not see that content, and records the purge as finished. */
  method FailedUndoStays(content: Content) returns (store: EvidenceStore)
    ensures fresh(store) && store.Valid() && store.index.items.Keys == {7}
    ensures store.index.items[7].status.Disposed? && !store.index.items[7].purgePending
    ensures Key(7, 2) in store.contents
  {
    store := new EvidenceStore(100, Index(map[], H.EmptyChain()), map[], []);
    var ingested := store.Ingest(7, content, 10, 0, false, false, false);
    var added := store.AddVersion(7, content, None, 1, false, true, true);
    var disposed := store.Dispose(7, 20, false, {}, false);
    assert store.index.items.Keys == {7};
  }

  /** The same when adding a version is cut off by a crash right before it saves the index. */
  method CrashedVersionStays(content: Content) returns (store: EvidenceStore)
    ensures fresh(store) && store.Valid() && store.index.items.Keys == {7}
    ensures store.index.items[7].status.Disposed? && !store.index.items[7].purgePending
    ensures Key(7, 2) in store.contents
  {
    var first := new EvidenceStore(100, Index(map[], H.EmptyChain()), map[], []);
    var ingested := first.Ingest(7, content, 10, 0, false, false, false);
    var index, contents := first.index, first.contents[Key(7, 2) := content];
    ghost var before, listed := first.contents, first.log;
    var added := first.AddVersion(7, content, None, 1, false, false, false);
    ghost var crashed := first.log[..|first.log| - 1] + [Crash];
    CutBeforeSave(listed, first.log, index, before, content);
    store := new EvidenceStore(100, index, contents, crashed);
    var disposed := store.Dispose(7, 20, false, {}, false);
    assert store.index.items.Keys == {7};
  }

  lemma CutBeforeSave(log: seq<Op>, more: seq<Op>, index: Index, contents: Contents, content: Content)
    requires After(100, log) == Some(System(100, index, contents, Idle))
    requires 7 in index.items && index.items[7] == NewItem(7, content, 10)
    requires more == log + [BeginVersion(7, content, None, 1), WriteContent, SaveIndex]
    ensures After(100, more[..|more| - 1] + [Crash]) == Some(System(100, index, contents[Key(7, 2) := content], Idle))
  {
    RunMore(Start(100), Step, log, BeginVersion(7, content, None, 1));
    RunMore(Start(100), Step, log + [BeginVersion(7, content, None, 1)], WriteContent);
    RunMore(Start(100), Step, log + [BeginVersion(7, content, None, 1)] + [WriteContent], Crash);
    assert more[..|more| - 1] == log + [BeginVersion(7, content, None, 1)] + [WriteContent];
  }
}
