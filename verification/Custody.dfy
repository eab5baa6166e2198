/**
 The custody store of src/evidence/evidenceRegistry.js: an index of evidence items and their event
 chain, saved whole, beside one content file per version.

 A step of a run is one disk operation, or an operation of the store beginning, as far as its checks
 let it; a crash may come between any two. That content is on disk before the index lists it, and gone
 only after the tombstone is saved, is nowhere assumed: it follows from the order of the operations.
 */
module Custody {
  import opened Prelude
  import opened Runs
  import H = HashChain

  type Content = seq<nat>

  datatype Fingerprint = Sha256(preimage: Content)

  datatype Version = Version(number: nat, sha256: Fingerprint, sizeBytes: nat)

  datatype Status = Active | Disposed

  datatype Item = Item(
    id: nat, status: Status, retentionUntil: int, currentVersion: nat, versions: seq<Version>,
    legalHold: bool, disposedAt: Option<int>, purgePending: bool)

  datatype Action = Ingested | VersionAdded | HoldPlaced | HoldReleased | DispositionCommitted | ContentPurged

  /** What the event chain records; `version` is the version added, or how many there are. */
  datatype CustodyEvent = CustodyEvent(action: Action, evidenceId: nat, version: nat, occurredAt: int)

  datatype Key = Key(id: nat, version: nat)

  type Items = map<nat, Item>

  datatype Index = Index(items: Items, chain: H.Chain<CustodyEvent>)

  type Contents = map<Key, Content>

  datatype Outcome = Done(item: Item) | NotFound | AlreadyDisposed | OnHold | NotOnHold | Retained | InvalidRetention
    | StoreFailure

  // ----- how the index changes -----

  function NewVersion(number: nat, content: Content): Version {
    Version(number, Sha256(content), |content|)
  }

  function NewItem(id: nat, content: Content, retentionUntil: int): Item {
    Item(id, Active, retentionUntil, 1, [NewVersion(1, content)], false, None, false)
  }

  function WithVersion(item: Item, content: Content, retentionUntil: Option<int>): Item {
    var number := item.currentVersion + 1;
    item.(versions := item.versions + [NewVersion(number, content)], currentVersion := number,
          retentionUntil := if retentionUntil.Some? then retentionUntil.value else item.retentionUntil)
  }

  predicate Invalid(retentionUntil: Option<int>, now: int) {
    retentionUntil.Some? && retentionUntil.value <= now
  }

  predicate ShortensUnderHold(item: Item, retentionUntil: Option<int>) {
    item.legalHold && retentionUntil.Some? && retentionUntil.value < item.retentionUntil
  }

  predicate IsActive(items: Items, id: nat) {
    id in items && items[id].status.Active?
  }

  /** Adding a version needs an active item, a date ahead, and no shortening of retention under a hold. */
  predicate MayAdd(items: Items, id: nat, retentionUntil: Option<int>, now: int) {
    !Invalid(retentionUntil, now) && IsActive(items, id) && !ShortensUnderHold(items[id], retentionUntil)
  }

  /** Disposition needs an active item, no legal hold, and the retention date behind it. */
  predicate MayDispose(items: Items, id: nat, now: int) {
    IsActive(items, id) && !items[id].legalHold && items[id].retentionUntil <= now
  }

  function Tombstone(item: Item, now: int, purgePending: bool): Item {
    item.(status := Disposed, disposedAt := Some(now), purgePending := purgePending)
  }

  function HoldAction(active: bool): Action {
    if active then HoldPlaced else HoldReleased
  }

  // ----- runs -----

  /** Where the operation under the store's lock is: between writing content and saving the index, in the
      catch block that removes the content again, or purging a disposed item. */
  datatype Doing =
    | Idle
    | Adding(key: Key, content: Content, next: Item, event: CustodyEvent, written: bool)
    | Undoing(key: Key)
    | Purging(item: Item, done: nat, failed: bool)

  datatype System = System(eventRetention: nat, index: Index, contents: Contents, doing: Doing)

  datatype Op =
    | BeginIngest(id: nat, content: Content, retentionUntil: int, now: int)
    | BeginVersion(id: nat, content: Content, newRetention: Option<int>, now: int)
    | WriteContent
    | SaveIndex
    | Fail
    | Undo(removed: bool)
    | SetHold(id: nat, active: bool, now: int)
    | SaveTombstone(id: nat, now: int)
    | PurgeContent(removed: bool)
    | EndPurge(now: int)
    | LeavePending
    | Crash

  ghost function Step(s: System, op: Op): Option<System> {
    var items := s.index.items;
    match op
    case BeginIngest(id, content, retentionUntil, now) =>
      if s.doing.Idle? && id !in items && !Invalid(Some(retentionUntil), now) then
        Some(s.(doing := Adding(Key(id, 1), content, NewItem(id, content, retentionUntil),
                                CustodyEvent(Ingested, id, 1, now), false)))
      else None
    case BeginVersion(id, content, newRetention, now) =>
      if s.doing.Idle? && MayAdd(items, id, newRetention, now) then
        var next := WithVersion(items[id], content, newRetention);
        Some(s.(doing := Adding(Key(id, next.currentVersion), content, next,
                                CustodyEvent(VersionAdded, id, next.currentVersion, now), false)))
      else None
    case WriteContent =>
      if s.doing.Adding? && !s.doing.written then
        Some(s.(contents := s.contents[s.doing.key := s.doing.content], doing := s.doing.(written := true)))
      else None
    case SaveIndex =>
      if s.doing.Adding? && s.doing.written then
        Some(s.(index := Saved(s, s.doing.key.id, s.doing.next, s.doing.event), doing := Idle))
      else None
    case Fail => if s.doing.Adding? then Some(s.(doing := Undoing(s.doing.key))) else None
    case Undo(removed) =>
      if s.doing.Undoing? then
        Some(s.(contents := if removed then s.contents - {s.doing.key} else s.contents, doing := Idle))
      else None
    case SetHold(id, active, now) =>
      if s.doing.Idle? && IsActive(items, id) && items[id].legalHold != active then
        Some(s.(index := Saved(s, id, items[id].(legalHold := active),
                               CustodyEvent(HoldAction(active), id, |items[id].versions|, now))))
      else None
    case SaveTombstone(id, now) =>
      if s.doing.Idle? && MayDispose(items, id, now) then
        var item := Tombstone(items[id], now, true);
        Some(s.(index := Saved(s, id, item, CustodyEvent(DispositionCommitted, id, |item.versions|, now)),
                doing := Purging(item, 0, false)))
      else None
    case PurgeContent(removed) =>
      if s.doing.Purging? && s.doing.done < |s.doing.item.versions| then
        var key := Key(s.doing.item.id, s.doing.item.versions[s.doing.done].number);
        Some(s.(contents := if removed then s.contents - {key} else s.contents,
                doing := Purging(s.doing.item, s.doing.done + 1, s.doing.failed || !removed)))
      else None
    case EndPurge(now) =>
      if s.doing.Purging? && s.doing.done == |s.doing.item.versions| && !s.doing.failed then
        var item := s.doing.item.(purgePending := false);
        Some(s.(index := Saved(s, item.id, item, CustodyEvent(ContentPurged, item.id, |item.versions|, now)),
                doing := Idle))
      else None
    case LeavePending =>
      if s.doing.Purging? && s.doing.done == |s.doing.item.versions| then Some(s.(doing := Idle)) else None
    case Crash => Some(s.(doing := Idle))
  }

  /** The index with one item and one event more. */
  function Saved(s: System, id: nat, item: Item, event: CustodyEvent): Index {
    Index(s.index.items[id := item], H.Appended(s.index.chain, event, s.eventRetention))
  }

  ghost function Start(eventRetention: nat): System {
    System(eventRetention, Index(map[], H.EmptyChain()), map[], Idle)
  }

  ghost function After(eventRetention: nat, log: seq<Op>): Option<System> {
    Run(Start(eventRetention), Step, log)
  }

  /** The state `n` steps into a run. */
  ghost function At(eventRetention: nat, log: seq<Op>, n: nat): System
    requires After(eventRetention, log).Some? && n <= |log|
  {
    PrefixRuns(Start(eventRetention), Step, log, n);
    After(eventRetention, log[..n]).value
  }

  lemma AtNext(eventRetention: nat, log: seq<Op>, i: nat)
    requires After(eventRetention, log).Some? && i < |log|
    ensures Step(At(eventRetention, log, i), log[i]) == Some(At(eventRetention, log, i + 1))
  {
    StepAt(Start(eventRetention), Step, log, i);
  }

  // ----- what the order of operations adds up to -----

  ghost predicate ItemOk(id: nat, item: Item) {
    && item.id == id
    && item.currentVersion == |item.versions| >= 1
    && (forall k :: 0 <= k < |item.versions| ==> item.versions[k].number == k + 1)
    && (item.status.Disposed? ==> !item.legalHold)
    && (item.purgePending ==> item.status.Disposed?)
  }

  predicate Holds(contents: Contents, id: nat, version: Version) {
    var key := Key(id, version.number);
    key in contents && Sha256(contents[key]) == version.sha256 && |contents[key]| == version.sizeBytes
  }

  ghost predicate Readable(contents: Contents, item: Item) {
    forall k :: 0 <= k < |item.versions| ==> Holds(contents, item.id, item.versions[k])
  }

  /** Every version an active item lists has its content on disk. */
  ghost predicate Consistent(items: Items, contents: Contents) {
    && (forall id :: id in items ==> ItemOk(id, items[id]))
    && (forall id :: id in items && items[id].status.Active? ==> Readable(contents, items[id]))
  }

  ghost predicate ListedActive(items: Items, key: Key) {
    IsActive(items, key.id) && 1 <= key.version <= |items[key.id].versions|
  }

  /** The item about to be saved lists one version more than the index does, and that one's content. */
  ghost predicate AddsVersion(items: Items, contents: Contents, d: Doing)
    requires d.Adding?
  {
    && ItemOk(d.key.id, d.next) && d.next.status.Active?
    && d.key.version == |d.next.versions|
    && d.next.versions[|d.next.versions| - 1] == NewVersion(d.key.version, d.content)
    && d.next.versions[..|d.next.versions| - 1] == (if d.key.id in items then items[d.key.id].versions else [])
    && (d.key.id in items ==> items[d.key.id].status.Active?)
    && (d.written ==> d.key in contents && contents[d.key] == d.content)
  }

  ghost predicate DoingOk(items: Items, contents: Contents, d: Doing) {
    match d
    case Idle => true
    case Adding(_, _, _, _, _) => AddsVersion(items, contents, d)
    case Undoing(key) => !ListedActive(items, key)
    case Purging(item, done, _) =>
      item.id in items && items[item.id] == item && item.status.Disposed? && done <= |item.versions|
  }

  ghost predicate SystemInv(s: System) {
    && Consistent(s.index.items, s.contents)
    && DoingOk(s.index.items, s.contents, s.doing)
    && H.ChainAccepted(s.index.chain)
  }

  /** Content of a key no active item lists may come and go. */
  lemma UnlistedContent(items: Items, contents: Contents, contents': Contents, key: Key)
    requires Consistent(items, contents) && !ListedActive(items, key)
    requires forall other :: other != key && other in contents ==>
               other in contents' && contents'[other] == contents[other]
    ensures Consistent(items, contents')
  {
    forall id | id in items && items[id].status.Active? ensures Readable(contents', items[id]) {
      assert ItemOk(id, items[id]) && Readable(contents, items[id]);
      forall k | 0 <= k < |items[id].versions| ensures Holds(contents', id, items[id].versions[k]) {
        assert Holds(contents, id, items[id].versions[k]);
        assert Key(id, items[id].versions[k].number) != key;
      }
    }
  }

  lemma SavedItem(items: Items, contents: Contents, id: nat, item: Item)
    requires Consistent(items, contents) && ItemOk(id, item)
    requires item.status.Active? ==> Readable(contents, item)
    ensures Consistent(items[id := item], contents)
  {
  }

  lemma AddedReadable(items: Items, contents: Contents, d: Doing)
    requires d.Adding? && d.written && AddsVersion(items, contents, d) && Consistent(items, contents)
    ensures Readable(contents, d.next)
  {
    var before := d.next.versions[..|d.next.versions| - 1];
    forall k | 0 <= k < |d.next.versions| ensures Holds(contents, d.next.id, d.next.versions[k]) {
      if k < |before| {
        assert before[k] == d.next.versions[k];
        assert Readable(contents, items[d.key.id]) && ItemOk(d.key.id, items[d.key.id]);
        assert Holds(contents, d.key.id, items[d.key.id].versions[k]);
      }
    }
  }

  lemma BeginKeepsInv(s: System, op: Op)
    requires SystemInv(s) && (op.BeginIngest? || op.BeginVersion?) && Step(s, op).Some?
    ensures SystemInv(Step(s, op).value)
  {
    if op.BeginVersion? {
      var item := s.index.items[op.id];
      assert ItemOk(op.id, item);
      var next := WithVersion(item, op.content, op.newRetention);
      assert next.versions[..|next.versions| - 1] == item.versions;
    }
  }

  lemma ContentStepKeepsInv(s: System, op: Op)
    requires SystemInv(s) && (op.WriteContent? || op.Fail? || op.Undo? || op.PurgeContent?) && Step(s, op).Some?
    ensures SystemInv(Step(s, op).value)
  {
    var s' := Step(s, op).value;
    match op
    case WriteContent => UnlistedContent(s.index.items, s.contents, s'.contents, s.doing.key);
    case Undo(_) => UnlistedContent(s.index.items, s.contents, s'.contents, s.doing.key);
    case PurgeContent(_) =>
      UnlistedContent(s.index.items, s.contents, s'.contents,
                      Key(s.doing.item.id, s.doing.item.versions[s.doing.done].number));
    case Fail =>
  }

  lemma SaveKeepsInv(s: System, op: Op)
    requires SystemInv(s) && (op.SaveIndex? || op.SetHold? || op.SaveTombstone? || op.EndPurge?) && Step(s, op).Some?
    ensures SystemInv(Step(s, op).value)
  {
    var items := s.index.items;
    match op
    case SaveIndex =>
      H.AppendedAccepted(s.index.chain, s.doing.event, s.eventRetention);
      AddedReadable(items, s.contents, s.doing);
      SavedItem(items, s.contents, s.doing.key.id, s.doing.next);
    case SetHold(id, active, now) =>
      H.AppendedAccepted(s.index.chain, CustodyEvent(HoldAction(active), id, |items[id].versions|, now),
                         s.eventRetention);
      assert ItemOk(id, items[id]) && Readable(s.contents, items[id]);
      SavedItem(items, s.contents, id, items[id].(legalHold := active));
    case SaveTombstone(id, now) =>
      H.AppendedAccepted(s.index.chain, CustodyEvent(DispositionCommitted, id, |items[id].versions|, now),
                         s.eventRetention);
      assert ItemOk(id, items[id]);
      SavedItem(items, s.contents, id, Tombstone(items[id], now, true));
    case EndPurge(now) =>
      var item := s.doing.item.(purgePending := false);
      H.AppendedAccepted(s.index.chain, CustodyEvent(ContentPurged, item.id, |item.versions|, now), s.eventRetention);
      assert ItemOk(item.id, items[item.id]);
      SavedItem(items, s.contents, item.id, item);
  }

  lemma StepKeepsInv(s: System, op: Op)
    requires SystemInv(s) && Step(s, op).Some?
    ensures SystemInv(Step(s, op).value)
  {
    if op.BeginIngest? || op.BeginVersion? {
      BeginKeepsInv(s, op);
    } else if op.WriteContent? || op.Fail? || op.Undo? || op.PurgeContent? {
      ContentStepKeepsInv(s, op);
    } else if !op.Crash? && !op.LeavePending? {
      SaveKeepsInv(s, op);
    }
  }

  lemma {:induction false} RunInv(eventRetention: nat, log: seq<Op>, n: nat)
    requires After(eventRetention, log).Some? && n <= |log|
    ensures SystemInv(At(eventRetention, log, n)) && At(eventRetention, log, n).eventRetention == eventRetention
  {
    if n > 0 {
      RunInv(eventRetention, log, n - 1);
      AtNext(eventRetention, log, n - 1);
      StepKeepsInv(At(eventRetention, log, n - 1), log[n - 1]);
    }
  }

  lemma StoredUnderId(eventRetention: nat, log: seq<Op>, id: nat)
    requires After(eventRetention, log).Some? && id in After(eventRetention, log).value.index.items
    ensures After(eventRetention, log).value.index.items[id].id == id
  {
    RunInv(eventRetention, log, |log|);
    assert log[..|log|] == log;
    assert ItemOk(id, After(eventRetention, log).value.index.items[id]);
  }

  /** What lies there has the digest and the size this version lists. */
  ghost predicate ContentFits(contents: Contents, key: Key, version: Version) {
    && key in contents && version.number == key.version
    && version.sha256 == Sha256(contents[key]) && version.sizeBytes == |contents[key]|
  }

  /** Wherever a crash strikes, every version an active item lists has matching content on disk, and the
      event chain is accepted. */
  lemma CrashConsistent(eventRetention: nat, log: seq<Op>, n: nat)
    requires After(eventRetention, log).Some? && n <= |log|
    ensures var s := At(eventRetention, log, n);
            && H.ChainAccepted(s.index.chain)
            && forall id, k :: IsActive(s.index.items, id) && 0 <= k < |s.index.items[id].versions| ==>
                 ContentFits(s.contents, Key(id, k + 1), s.index.items[id].versions[k])
  {
    RunInv(eventRetention, log, n);
    var s := At(eventRetention, log, n);
    forall id, k | IsActive(s.index.items, id) && 0 <= k < |s.index.items[id].versions|
      ensures ContentFits(s.contents, Key(id, k + 1), s.index.items[id].versions[k])
    {
      assert ItemOk(id, s.index.items[id]) && Readable(s.contents, s.index.items[id]);
      assert Holds(s.contents, id, s.index.items[id].versions[k]);
    }
  }

  /** Items are never forgotten, versions only added, tombstones never undone. */
  ghost predicate ItemsGrow(items: Items, items': Items) {
    forall id :: id in items ==>
      && id in items' && items[id].versions <= items'[id].versions
      && (items[id].status.Disposed? ==> items'[id].status.Disposed? && items'[id].versions == items[id].versions)
  }

  lemma StepGrows(s: System, op: Op)
    requires SystemInv(s) && Step(s, op).Some?
    ensures ItemsGrow(s.index.items, Step(s, op).value.index.items)
  {
    if op.SaveIndex? && s.doing.key.id in s.index.items {
      var next := s.doing.next.versions;
      assert next[..|next| - 1] <= next;
    }
  }

  lemma {:induction false} ItemsPersist(eventRetention: nat, log: seq<Op>, i: nat, j: nat)
    requires After(eventRetention, log).Some? && i <= j <= |log|
    ensures ItemsGrow(At(eventRetention, log, i).index.items, At(eventRetention, log, j).index.items)
    decreases j - i
  {
    if i < j {
      ItemsPersist(eventRetention, log, i, j - 1);
      RunInv(eventRetention, log, j - 1);
      AtNext(eventRetention, log, j - 1);
      StepGrows(At(eventRetention, log, j - 1), log[j - 1]);
    }
  }

  /** One step leaves content an active item lists alone, unless it saves that item's tombstone. */
  lemma StepKeepsContent(s: System, op: Op, key: Key)
    requires SystemInv(s) && Step(s, op).Some? && ListedActive(s.index.items, key)
    ensures var s' := Step(s, op).value;
            && key in s.contents && key in s'.contents && s'.contents[key] == s.contents[key]
            && (ListedActive(s'.index.items, key)
                || (op.SaveTombstone? && op.id == key.id && MayDispose(s.index.items, key.id, op.now)))
  {
    var item := s.index.items[key.id];
    assert ItemOk(key.id, item) && Readable(s.contents, item);
    assert Holds(s.contents, key.id, item.versions[key.version - 1]);
    if op.PurgeContent? {
      assert s.doing.item.id != key.id;
    }
  }

  /** Content of an active item that is gone or changed later was preceded by that item's tombstone, saved
      after its retention date and without a legal hold. */
  lemma {:induction false} ContentOutlivesItem(eventRetention: nat, log: seq<Op>, i: nat, j: nat, key: Key)
    requires After(eventRetention, log).Some? && i <= j <= |log|
    requires ListedActive(At(eventRetention, log, i).index.items, key)
    requires key in At(eventRetention, log, i).contents
    requires var later := At(eventRetention, log, j).contents;
             key !in later || later[key] != At(eventRetention, log, i).contents[key]
    ensures exists m :: i <= m < j && log[m].SaveTombstone? && log[m].id == key.id
                        && MayDispose(At(eventRetention, log, m).index.items, key.id, log[m].now)
    decreases j - i
  {
    assert i < j;
    RunInv(eventRetention, log, i);
    AtNext(eventRetention, log, i);
    StepKeepsContent(At(eventRetention, log, i), log[i], key);
    if ListedActive(At(eventRetention, log, i + 1).index.items, key) {
      ContentOutlivesItem(eventRetention, log, i + 1, j, key);
    }
  }

  // ----- where content can lie -----

  /** The slot right behind the versions an item lists; an item not listed yet starts at one. */
  predicate NextSlot(items: Items, key: Key) {
    if key.id in items then items[key.id].status.Active? && key.version == |items[key.id].versions| + 1
    else key.version == 1
  }

  predicate InBounds(items: Items, key: Key) {
    if key.id in items then 1 <= key.version <= |items[key.id].versions| + 1 else key.version == 1
  }

  ghost predicate Bounded(s: System) {
    && (forall key :: key in s.contents ==> InBounds(s.index.items, key))
    && (s.doing.Undoing? ==> NextSlot(s.index.items, s.doing.key))
  }

  lemma AddingNext(s: System)
    requires SystemInv(s) && s.doing.Adding?
    ensures NextSlot(s.index.items, s.doing.key)
  {
    var next := s.doing.next.versions;
    assert |next[..|next| - 1]| == |next| - 1;
  }

  lemma StepBounded(s: System, op: Op)
    requires SystemInv(s) && Bounded(s) && Step(s, op).Some?
    ensures Bounded(Step(s, op).value)
  {
    if s.doing.Adding? {
      AddingNext(s);
    }
  }

  /** In every run, content lies only at versions its item lists or at the one right behind them. */
  lemma {:induction false} RunBounded(eventRetention: nat, log: seq<Op>, n: nat)
    requires After(eventRetention, log).Some? && n <= |log|
    ensures Bounded(At(eventRetention, log, n))
  {
    if n > 0 {
      RunBounded(eventRetention, log, n - 1);
      RunInv(eventRetention, log, n - 1);
      AtNext(eventRetention, log, n - 1);
      StepBounded(At(eventRetention, log, n - 1), log[n - 1]);
    }
  }

  predicate NoContent(contents: Contents, id: nat) {
    forall key :: key in contents ==> key.id != id
  }

  /** A purge leaves nothing of an active item if and only if no removal fails and nothing lies behind the
      versions the item lists. */
  lemma PurgeLeaves(eventRetention: nat, log: seq<Op>, id: nat, after: Contents, kept: set<nat>)
    requires After(eventRetention, log).Some?
    requires var s := After(eventRetention, log).value;
             IsActive(s.index.items, id)
             && var versions := s.index.items[id].versions; Purged(s.contents, after, id, versions, |versions|, kept)
    ensures var s := After(eventRetention, log).value;
            var item := s.index.items[id];
            NoContent(after, id)
            <==>
            !SomeKept(item.versions, |item.versions|, kept) && Key(id, item.currentVersion + 1) !in s.contents
  {
    RunInv(eventRetention, log, |log|);
    RunBounded(eventRetention, log, |log|);
    assert log[..|log|] == log;
    PurgeLeavesIff(After(eventRetention, log).value, id, after, kept);
  }

  lemma VersionNumbers(id: nat, item: Item)
    requires ItemOk(id, item)
    ensures forall v: nat :: IsVersion(item.versions, |item.versions|, v) <==> 1 <= v <= |item.versions|
  {
    forall v: nat | 1 <= v <= |item.versions| ensures IsVersion(item.versions, |item.versions|, v) {
      assert item.versions[v - 1].number == v;
    }
  }

  lemma PurgeLeavesIff(s: System, id: nat, after: Contents, kept: set<nat>)
    requires SystemInv(s) && Bounded(s) && IsActive(s.index.items, id)
    requires var versions := s.index.items[id].versions; Purged(s.contents, after, id, versions, |versions|, kept)
    ensures var item := s.index.items[id];
            NoContent(after, id)
            <==>
            !SomeKept(item.versions, |item.versions|, kept) && Key(id, item.currentVersion + 1) !in s.contents
  {
    var item := s.index.items[id];
    var versions := item.versions;
    assert ItemOk(id, item) && Readable(s.contents, item);
    VersionNumbers(id, item);
    if SomeKept(versions, |versions|, kept) {
      var k :| 0 <= k < |versions| && versions[k].number in kept;
      assert Holds(s.contents, id, versions[k]);
      assert Key(id, k + 1) in after;
    } else {
      forall key | key in after && key.id == id ensures key == Key(id, |versions| + 1) && key in s.contents {
        assert IsVersion(versions, |versions|, key.version) ==> key.version !in kept;
        assert InBounds(s.index.items, key);
      }
      var next := Key(id, |versions| + 1);
      assert next in after <==> next in s.contents;
    }
  }

  // ----- the store -----

  class EvidenceStore {
    const eventRetention: nat
    var index: Index
    var contents: Contents
    /** Everything that ever happened to the directory. */
    ghost var log: seq<Op>

    ghost predicate Doing(doing: Doing)
      reads this
    {
      After(eventRetention, log) == Some(System(eventRetention, index, contents, doing))
    }

    ghost predicate Valid()
      reads this
    {
      Doing(Idle)
    }

    /** Opens the store over what an earlier run, crashed or not, left behind. */
    constructor (eventRetention: nat, index: Index, contents: Contents, ghost log: seq<Op>)
      requires After(eventRetention, log) == Some(System(eventRetention, index, contents, Idle))
      ensures Valid() && this.index == index && this.contents == contents && this.log == log
      ensures this.eventRetention == eventRetention
    {
      this.eventRetention, this.index, this.contents, this.log := eventRetention, index, contents, log;
    }

    ghost method Record(op: Op, next: Doing)
      requires After(eventRetention, log).Some?
      requires Step(After(eventRetention, log).value, op) == Some(System(eventRetention, index, contents, next))
      modifies this`log
      ensures Doing(next) && log == old(log) + [op]
    {
      RunMore(Start(eventRetention), Step, log, op);
      log := log + [op];
    }

    /** The write block and its catch block, shared by `ingest` and `addVersion`. */
    method WriteThenSave(key: Key, content: Content, next: Item, event: CustodyEvent, contentFails: bool,
                         indexFails: bool, undoFails: bool)
      returns (saved: bool)
      requires Doing(Adding(key, content, next, event, false))
      modifies this
      ensures Valid() && old(log) <= log
      ensures saved <==> !contentFails && !indexFails
      ensures index ==
              if saved then Index(old(index).items[key.id := next], H.Appended(old(index).chain, event, eventRetention))
                else old(index)
      ensures if saved then contents == old(contents)[key := content]
              else if !undoFails then contents == old(contents) - {key}
              else contents == if contentFails then old(contents) else old(contents)[key := content]
      ensures saved ==> log == old(log) + [WriteContent, SaveIndex]
    {
      saved := false;
      if !contentFails {
        contents := contents[key := content];
        Record(WriteContent, Adding(key, content, next, event, true));
        if !indexFails {
          index := Index(index.items[key.id := next], H.Appended(index.chain, event, eventRetention));
          Record(SaveIndex, Idle);
          return true;
        }
      }
      Record(Fail, Undoing(key));
      if !undoFails {
        contents := contents - {key};
      }
      Record(Undo(!undoFails), Idle);
    }

    /** `ingest`, under a fresh evidence id. The flags say which disk operations fail. */
    method Ingest(id: nat, content: Content, retentionUntil: int, now: int, contentFails: bool, indexFails: bool,
                  undoFails: bool)
      returns (outcome: Outcome)
      requires Valid() && id !in index.items
      modifies this
      ensures Valid() && old(log) <= log
      ensures outcome.InvalidRetention? <==> retentionUntil <= now
      ensures outcome.Done? <==> retentionUntil > now && !contentFails && !indexFails
      ensures outcome.StoreFailure? <==> retentionUntil > now && (contentFails || indexFails)
      ensures outcome.Done? ==>
                && outcome.item == NewItem(id, content, retentionUntil)
                && index.items == old(index).items[id := outcome.item]
                && contents == old(contents)[Key(id, 1) := content]
                && index.chain == H.Appended(old(index).chain, CustodyEvent(Ingested, id, 1, now), eventRetention)
      ensures outcome.Done? ==>
                var item := outcome.item;
                && item.id == id && item.status.Active? && item.retentionUntil == retentionUntil && !item.legalHold
                && item.versions == [Version(1, Sha256(content), |content|)] && item.currentVersion == 1
                && item.disposedAt.None? && !item.purgePending
      ensures !outcome.Done? ==> index == old(index)
      ensures outcome.StoreFailure? ==>
                contents == if !undoFails then old(contents) - {Key(id, 1)}
                            else if contentFails then old(contents) else old(contents)[Key(id, 1) := content]
      ensures outcome.InvalidRetention? ==> contents == old(contents)
    {
      if retentionUntil <= now {
        return InvalidRetention;
      }
      var item, event := NewItem(id, content, retentionUntil), CustodyEvent(Ingested, id, 1, now);
      Record(BeginIngest(id, content, retentionUntil, now), Adding(Key(id, 1), content, item, event, false));
      var saved := WriteThenSave(Key(id, 1), content, item, event, contentFails, indexFails, undoFails);
      return if saved then Done(item) else StoreFailure;
    }

    /** `addVersion`: content under the next number, then the index. */
    method AddVersion(id: nat, content: Content, retentionUntil: Option<int>, now: int, contentFails: bool,
                      indexFails: bool, undoFails: bool)
      returns (outcome: Outcome)
      requires Valid()
      modifies this
      ensures Valid() && old(log) <= log
      ensures outcome.InvalidRetention? <==> retentionUntil.Some? && retentionUntil.value <= now
      ensures outcome.NotFound? <==> !outcome.InvalidRetention? && id !in old(index).items
      ensures outcome.AlreadyDisposed? <==>
                !outcome.InvalidRetention? && id in old(index).items && old(index).items[id].status.Disposed?
      ensures outcome.OnHold? <==>
              !outcome.InvalidRetention? && IsActive(old(index).items, id)
                && old(index).items[id].legalHold
                && retentionUntil.Some? && retentionUntil.value < old(index).items[id].retentionUntil
      ensures outcome.Done? <==> MayAdd(old(index).items, id, retentionUntil, now) && !contentFails && !indexFails
      ensures outcome.StoreFailure? <==>
                MayAdd(old(index).items, id, retentionUntil, now) && (contentFails || indexFails)
      ensures outcome.Done? ==>
                var next := WithVersion(old(index).items[id], content, retentionUntil);
                && outcome.item == next && index.items == old(index).items[id := next]
                && contents == old(contents)[Key(id, next.currentVersion) := content]
                && index.chain == H.Appended(old(index).chain, CustodyEvent(VersionAdded, id, next.currentVersion, now),
                                             eventRetention)
      ensures outcome.Done? ==>
                var was, item := old(index).items[id], outcome.item;
                && item.id == was.id && item.status.Active? && item.legalHold == was.legalHold
                && item.retentionUntil == (if retentionUntil.Some? then retentionUntil.value else was.retentionUntil)
                && item.versions == was.versions + [Version(item.currentVersion, Sha256(content), |content|)]
                && item.currentVersion == was.currentVersion + 1
                && item.disposedAt == was.disposedAt && item.purgePending == was.purgePending
      ensures !outcome.Done? ==> index == old(index)
      ensures outcome.StoreFailure? ==>
                var key := Key(id, old(index).items[id].currentVersion + 1);
                contents == if !undoFails then old(contents) - {key}
                            else if contentFails then old(contents) else old(contents)[key := content]
      ensures outcome.Done? ==>
                log == old(log) + [BeginVersion(id, content, retentionUntil, now), WriteContent, SaveIndex]
      ensures !outcome.Done? && !outcome.StoreFailure? ==> contents == old(contents)
    {
      if Invalid(retentionUntil, now) {
        return InvalidRetention;
      }
      if id !in index.items {
        return NotFound;
      }
      var item := index.items[id];
      if item.status.Disposed? {
        return AlreadyDisposed;
      }
      if ShortensUnderHold(item, retentionUntil) {
        return OnHold;
      }
      var next := WithVersion(item, content, retentionUntil);
      var key, event := Key(id, next.currentVersion), CustodyEvent(VersionAdded, id, next.currentVersion, now);
      Record(BeginVersion(id, content, retentionUntil, now), Adding(key, content, next, event, false));
      var saved := WriteThenSave(key, content, next, event, contentFails, indexFails, undoFails);
      return if saved then Done(next) else StoreFailure;
    }

    /** `placeLegalHold` and `releaseLegalHold`. */
    method SetLegalHold(id: nat, active: bool, now: int, indexFails: bool) returns (outcome: Outcome)
      requires Valid()
      modifies this
      ensures Valid() && old(log) <= log && contents == old(contents)
      ensures outcome.NotFound? <==> id !in old(index).items
      ensures outcome.AlreadyDisposed? <==> id in old(index).items && old(index).items[id].status.Disposed?
      ensures outcome.Done? <==>
                IsActive(old(index).items, id) && old(index).items[id].legalHold != active && !indexFails
      ensures outcome.StoreFailure? <==>
                IsActive(old(index).items, id) && old(index).items[id].legalHold != active && indexFails
      ensures outcome.OnHold? <==> active && IsActive(old(index).items, id) && old(index).items[id].legalHold
      ensures outcome.NotOnHold? <==> !active && IsActive(old(index).items, id) && !old(index).items[id].legalHold
      ensures if outcome.Done? then
                && outcome.item == old(index).items[id].(legalHold := active)
                && index.items == old(index).items[id := outcome.item]
                && index.chain == H.Appended(old(index).chain,
                                             CustodyEvent(if active then HoldPlaced else HoldReleased, id,
                                                          |outcome.item.versions|, now),
                                             eventRetention)
              else index == old(index)
    {
      if id !in index.items {
        return NotFound;
      }
      var item := index.items[id];
      if item.status.Disposed? {
        return AlreadyDisposed;
      }
      if item.legalHold == active {
        return if active then OnHold else NotOnHold;
      }
      if indexFails {
        return StoreFailure;
      }
      var next := item.(legalHold := active);
      index := Index(index.items[id := next],
                     H.Appended(index.chain, CustodyEvent(HoldAction(active), id, |item.versions|, now),
                                eventRetention));
      Record(SetHold(id, active, now), Idle);
      return Done(next);
    }

    /** `dispose`: tombstone first, then the contents, then the end of the purge. `kept` are the versions
        whose content cannot be removed. */
    method Dispose(id: nat, now: int, indexFails: bool, kept: set<nat>, purgeSaveFails: bool) returns (outcome: Outcome)
      requires Valid()
      modifies this
      ensures Valid() && old(log) <= log
      ensures outcome.NotFound? <==> id !in old(index).items
      ensures outcome.AlreadyDisposed? <==> id in old(index).items && old(index).items[id].status.Disposed?
      ensures outcome.OnHold? <==> IsActive(old(index).items, id) && old(index).items[id].legalHold
      ensures outcome.Retained? <==>
              IsActive(old(index).items, id) && !old(index).items[id].legalHold
                && old(index).items[id].retentionUntil > now
      ensures if MayDispose(old(index).items, id, now) && !indexFails then
                var versions := old(index).items[id].versions;
                && id in index.items && index.items[id] ==
                  Tombstone(old(index).items[id], now, index.items[id].purgePending)
                && index.items == old(index).items[id := index.items[id]]
                && Purged(old(contents), contents, id, versions, |versions|, kept)
                && (index.items[id].purgePending <==> purgeSaveFails || SomeKept(versions, |versions|, kept))
                && outcome ==
                  (if purgeSaveFails && !SomeKept(versions, |versions|, kept) then StoreFailure
                   else Done(index.items[id]))
              else
                index == old(index) && contents == old(contents) && !outcome.Done?
      ensures MayDispose(old(index).items, id, now) && indexFails ==> outcome.StoreFailure?
      ensures MayDispose(old(index).items, id, now) && !indexFails ==>
                var was, item := old(index).items[id], index.items[id];
                && item.status.Disposed? && item.disposedAt == Some(now)
                && item.id == was.id && item.versions == was.versions && item.retentionUntil == was.retentionUntil
      ensures MayDispose(old(index).items, id, now) && !indexFails ==>
                var item := old(index).items[id];
                NoContent(contents, id)
                <==>
                !SomeKept(item.versions, |item.versions|, kept) && Key(id, item.currentVersion + 1) !in old(contents)
    {
      if id !in index.items {
        return NotFound;
      }
      var item := index.items[id];
      if item.status.Disposed? {
        return AlreadyDisposed;
      }
      if item.legalHold {
        return OnHold;
      }
      if item.retentionUntil > now {
        return Retained;
      }
      if indexFails {
        return StoreFailure;
      }
      outcome := CommitDisposition(id, now, kept, purgeSaveFails);
      PurgeLeaves(eventRetention, old(log), id, contents, kept);
    }

    method CommitDisposition(id: nat, now: int, kept: set<nat>, purgeSaveFails: bool) returns (outcome: Outcome)
      requires Valid() && MayDispose(index.items, id, now)
      modifies this
      ensures Valid() && old(log) <= log
      ensures var was := old(index).items[id];
              && id in index.items && index.items[id] == Tombstone(was, now, index.items[id].purgePending)
              && index.items == old(index).items[id := index.items[id]]
              && Purged(old(contents), contents, id, was.versions, |was.versions|, kept)
              && (index.items[id].purgePending <==> purgeSaveFails || SomeKept(was.versions, |was.versions|, kept))
              && outcome ==
                (if purgeSaveFails && !SomeKept(was.versions, |was.versions|, kept) then StoreFailure
                 else Done(index.items[id]))
    {
      StoredUnderId(eventRetention, log, id);
      var item := Tombstone(index.items[id], now, true);
      index := Index(index.items[id := item],
                     H.Appended(index.chain, CustodyEvent(DispositionCommitted, id, |item.versions|, now),
                                eventRetention));
      Record(SaveTombstone(id, now), Purging(item, 0, false));
      var failed := Purge(item, kept);
      outcome := EndDisposition(item, failed, now, purgeSaveFails);
    }

    /** The purge ends on record only when every content went and the index can be saved once more. */
    method EndDisposition(item: Item, failed: bool, now: int, purgeSaveFails: bool) returns (outcome: Outcome)
      requires Doing(Purging(item, |item.versions|, failed))
      requires item.id in index.items && index.items[item.id] == item && item.purgePending
      modifies this`index, this`log
      ensures Valid() && old(log) <= log
      ensures var ended := item.(purgePending := failed || purgeSaveFails);
              && index.items == old(index).items[item.id := ended]
              && outcome == if purgeSaveFails && !failed then StoreFailure else Done(ended)
    {
      if !failed && !purgeSaveFails {
        var ended := item.(purgePending := false);
        index := Index(index.items[item.id := ended],
                       H.Appended(index.chain, CustodyEvent(ContentPurged, item.id, |item.versions|, now),
                                  eventRetention));
        Record(EndPurge(now), Idle);
        return Done(ended);
      }
      Record(LeavePending, Idle);
      return if failed then Done(item) else StoreFailure;
    }

    method Purge(item: Item, kept: set<nat>) returns (failed: bool)
      requires Doing(Purging(item, 0, false))
      modifies this`contents, this`log
      ensures Doing(Purging(item, |item.versions|, failed)) && old(log) <= log
      ensures Purged(old(contents), contents, item.id, item.versions, |item.versions|, kept)
      ensures failed <==> SomeKept(item.versions, |item.versions|, kept)
    {
      failed := false;
      var k := 0;
      while k < |item.versions|
        invariant k <= |item.versions| && Doing(Purging(item, k, failed)) && old(log) <= log
        invariant Purged(old(contents), contents, item.id, item.versions, k, kept)
        invariant failed <==> SomeKept(item.versions, k, kept)
      {
        var number := item.versions[k].number;
        if number in kept {
          failed := true;
        } else {
          contents := contents - {Key(item.id, number)};
        }
        Record(PurgeContent(number !in kept), Purging(item, k + 1, failed));
        k := k + 1;
      }
    }

    /** `verify`: the event chain, and then the contents of one item, or of all when no id is given. */
    method Verify(id: Option<nat>) returns (found: bool, valid: bool)
      ensures found <==> id.None? || id.value in index.items
      ensures valid <==>
              && H.ChainAccepted(index.chain) && found
              && forall other :: IsActive(index.items, other) && (id.None? || other == id.value) ==>
                Readable(contents, index.items[other])
    {
      var chained := H.CheckChain(index.chain);
      found := id.None? || id.value in index.items;
      if !chained || !found {
        return found, false;
      }
      var rest := if id.Some? then {id.value} else index.items.Keys;
      while rest != {}
        invariant rest <= index.items.Keys && forall other :: other in rest ==> id.None? || other == id.value
        invariant forall other :: other in index.items && (id.None? || other == id.value) ==>
                    other in rest || (index.items[other].status.Active? ==> Readable(contents, index.items[other]))
        decreases rest
      {
        var other :| other in rest;
        if index.items[other].status.Active? {
          var readable := VerifyItem(index.items[other]);
          if !readable {
            return true, false;
          }
        }
        rest := rest - {other};
      }
      return true, true;
    }

    method VerifyItem(item: Item) returns (readable: bool)
      ensures readable <==> Readable(contents, item)
      ensures readable <==>
              forall k :: 0 <= k < |item.versions| ==>
                ContentFits(contents, Key(item.id, item.versions[k].number), item.versions[k])
    {
      var k := 0;
      while k < |item.versions|
        invariant k <= |item.versions|
        invariant forall j :: 0 <= j < k ==> Holds(contents, item.id, item.versions[j])
      {
        if !Holds(contents, item.id, item.versions[k]) {
          return false;
        }
        k := k + 1;
      }
      return true;
    }
  }

  ghost predicate IsVersion(versions: seq<Version>, n: nat, number: nat)
    requires n <= |versions|
  {
    exists k :: 0 <= k < n && versions[k].number == number
  }

  ghost predicate SomeKept(versions: seq<Version>, n: nat, kept: set<nat>)
    requires n <= |versions|
  {
    exists k :: 0 <= k < n && versions[k].number in kept
  }

  /** The contents of the first `n` versions are gone, except those in `kept`; nothing else changed. */
  ghost predicate Purged(before: Contents, after: Contents, id: nat, versions: seq<Version>, n: nat, kept: set<nat>)
    requires n <= |versions|
  {
    forall key ::
      && (key in after <==>
          key in before && !(key.id == id && IsVersion(versions, n, key.version) && key.version !in kept))
      && (key in after && key in before ==> after[key] == before[key])
  }

  /** Verification succeeds on every state a run, crashed or not, can leave behind. */
  method VerifyAfterCrash(eventRetention: nat, index: Index, contents: Contents, ghost log: seq<Op>, ghost n: nat)
    returns (valid: bool)
    requires After(eventRetention, log).Some? && n <= |log|
    requires var s := At(eventRetention, log, n); s.index == index && s.contents == contents
    ensures valid
  {
    RunInv(eventRetention, log, n);
    PrefixRuns(Start(eventRetention), Step, log, n);
    RunMore(Start(eventRetention), Step, log[..n], Crash);
    var reopened := new EvidenceStore(eventRetention, index, contents, log[..n] + [Crash]);
    var found;
    found, valid := reopened.Verify(None);
  }
}
