/**
 When a save can still be passed over: exactly which states of the write protocol have a continuation in
 which a process with the same or a later token saves something that does not build on it.
 */
module PassedOver {
  import opened Prelude
  import opened Lease
  import opened FencedStore
  import opened WriteProtocol

  /** The step renames a snapshot into place that does not build on `x`, under the token `t` or a later one. */
  ghost predicate PassesOver(s: System, step: Step, t: nat, x: Snapshot) {
    && step.Act? && step.action.RenameVersion? && step.p in s.writes
    && t <= s.writes[step.p].id.token && !CheckedBuilds(s.writes[step.p], x)
  }

  /** Some way for the run to go on passes `x` over. */
  ghost predicate CanBePassedOver(c: Config, states: seq<System>, t: nat, x: Snapshot) {
    exists longer: seq<System>, step ::
      states <= longer && IsRun(c, longer) && Passes(c, longer, step, t, x)
  }

  ghost predicate Passes(c: Config, states: seq<System>, step: Step, t: nat, x: Snapshot) {
    states != [] && Enabled(c, states[|states| - 1], step) && PassesOver(states[|states| - 1], step, t, x)
  }

  // ----- what keeps a save from being passed over -----

  /** A fence check under this token can still pass: no later token has saved. */
  ghost predicate FenceOpen(s: System, token: nat) {
    forall u :: u in s.last ==> u <= token
  }

  ghost predicate CheckedBuilds(w: Write, x: Snapshot) {
    w.stage.Operating? && w.stage.io.Checked? ==> x <= w.stage.io.next
  }

  /** Whatever loading this listing can still yield builds on `x`. */
  ghost predicate ListedBuilds(c: Config, s: System, x: Snapshot, newest: Option<nat>) {
    match newest
    case None => x <= c.base
    case Some(v) =>
      && (v in s.versions ==> x <= s.versions[v])
      && forall r :: r in s.writes && s.writes[r].id.token == v ==> CheckedBuilds(s.writes[r], x)
  }

  /** What the process may still save builds on `x`: what has passed its fence check, and, as long as another
      check can pass, its view or what it is about to load. */
  ghost predicate WriteBuilds(c: Config, s: System, t: nat, x: Snapshot, w: Write) {
    t <= w.id.token ==>
      && CheckedBuilds(w, x)
      && (w.stage.Operating? && FenceOpen(s, w.id.token) ==>
            match w.stage.io
            case Listed(newest) => ListedBuilds(c, s, x, newest)
            case Checked(_) => true
            case _ => w.view.Some? ==> x <= w.view.value)
  }

  ghost predicate NewestBuilds(s: System, x: Snapshot) {
    match Newest(s.versions.Keys)
    case None => true
    case Some(u) => x <= s.versions[u]
  }

  ghost predicate AllBuild(c: Config, s: System, t: nat, x: Snapshot) {
    && NewestBuilds(s, x)
    && forall p :: p in s.writes ==> WriteBuilds(c, s, t, x, s.writes[p])
  }

  // ----- it is enough -----

  /** A process comes to its operation without a view. */
  ghost predicate EntersFresh(s: System) {
    forall p :: p in s.writes && s.writes[p].stage.Entering? ==> s.writes[p].view.None?
  }

  lemma EntersFreshStep(c: Config, s: System, step: Step)
    requires Enabled(c, s, step) && EntersFresh(s)
    ensures EntersFresh(Next(c, s, step))
  {
  }

  lemma {:induction false} RunEntersFresh(c: Config, states: seq<System>, i: nat)
    requires IsRun(c, states) && i < |states|
    ensures EntersFresh(states[i])
  {
    if i > 0 {
      RunEntersFresh(c, states, i - 1);
      assert FollowsAt(c, states, i);
      var step :| Enabled(c, states[i - 1], step) && Next(c, states[i - 1], step) == states[i];
      EntersFreshStep(c, states[i - 1], step);
    }
  }

  /** The newest version builds on `x` still, while no save follows. */
  lemma NewestStillBuilds(s: System, s': System, x: Snapshot)
    requires StoreInv(s) && StoreInv(s') && s'.last == s.last && NewestBuilds(s, x)
    requires forall u :: u in s'.versions ==> u in s.versions && s'.versions[u] == s.versions[u]
    ensures NewestBuilds(s', x)
  {
    NewestIsNewestSaved(s);
    NewestIsNewestSaved(s');
  }

  /** No fence check passes under a token before the newest saved one. */
  lemma FenceClosedBefore(s: System, t: nat, token: nat)
    requires StoreInv(s) && t in s.last && token < t
    ensures !forall u :: u in s.versions ==> u <= token
  {
    ListingShowsSave(s, t);
    assert Newest(s.versions.Keys).value in s.versions;
  }

  /** A listing yields what it yielded, when every version file is as it was, comes from a check made before,
      or is gone, and no check under its token passes meanwhile. */
  lemma ListedStillBuilds(c: Config, s: System, s': System, x: Snapshot, v: nat)
    requires ListedBuilds(c, s, x, Some(v))
    requires v in s'.versions ==> (v in s.versions && s'.versions[v] == s.versions[v]) || x <= s'.versions[v]
    requires forall r :: r in s'.writes && s'.writes[r].id.token == v ==>
               CheckedBuilds(s'.writes[r], x) || (r in s.writes && s'.writes[r] == s.writes[r])
    ensures ListedBuilds(c, s', x, Some(v))
  {
  }

  lemma WriteStillBuilds(c: Config, s: System, s': System, t: nat, x: Snapshot, w: Write)
    requires WriteBuilds(c, s, t, x, w)
    requires s.last.Keys <= s'.last.Keys
    requires forall v :: ListedBuilds(c, s, x, Some(v)) ==> ListedBuilds(c, s', x, Some(v))
    ensures WriteBuilds(c, s', t, x, w)
  {
    assert FenceOpen(s', w.id.token) ==> FenceOpen(s, w.id.token);
  }

  lemma RenameListing(c: Config, s: System, s': System, p: nat, next: Snapshot, x: Snapshot, v: nat)
    requires Renamed(s, s', p, next) && s.writes[p].stage == Operating(Checked(next))
    requires ListedBuilds(c, s, x, Some(v))
    ensures ListedBuilds(c, s', x, Some(v))
  {
    if v == s.writes[p].id.token {
      assert CheckedBuilds(s.writes[p], x);
    }
    ListedStillBuilds(c, s, s', x, v);
  }

  lemma RenameNewest(s: System, s': System, p: nat, next: Snapshot, t: nat, x: Snapshot)
    requires StoreInv(s) && t in s.last && NewestBuilds(s, x) && Renamed(s, s', p, next)
    requires t <= s.writes[p].id.token ==> x <= next
    ensures NewestBuilds(s', x)
  {
    var token := s.writes[p].id.token;
    ListingShowsSave(s, t);
    var n := Newest(s.versions.Keys).value;
    NewestUnique(if n < token then token else n, s'.versions.Keys);
  }

  lemma RenameBuilds(c: Config, s: System, s': System, p: nat, next: Snapshot, t: nat, x: Snapshot)
    requires StoreInv(s) && t in s.last && AllBuild(c, s, t, x)
    requires Renamed(s, s', p, next) && s.writes[p].stage == Operating(Checked(next))
    ensures AllBuild(c, s', t, x)
  {
    assert WriteBuilds(c, s, t, x, s.writes[p]);
    RenameNewest(s, s', p, next, t, x);
    forall v | ListedBuilds(c, s, x, Some(v)) ensures ListedBuilds(c, s', x, Some(v)) {
      RenameListing(c, s, s', p, next, x, v);
    }
    forall q | q in s'.writes ensures WriteBuilds(c, s', t, x, s'.writes[q]) {
      if q != p {
        WriteStillBuilds(c, s, s', t, x, s.writes[q]);
      }
    }
  }

  /** What the acting process itself may save builds on `x` still. */
  lemma ActorBuilds(c: Config, s: System, w: Write, action: Action, t: nat, x: Snapshot)
    requires CanAct(s, w, action) && !action.RenameVersion?
    requires StoreInv(s) && t in s.last && NewestBuilds(s, x) && WriteBuilds(c, s, t, x, w)
    requires w.stage.Entering? ==> w.view.None?
    requires forall r :: r in s.writes && t <= s.writes[r].id.token ==> CheckedBuilds(s.writes[r], x)
    ensures WriteBuilds(c, s, t, x, Acted(c, s, w, action))
    ensures CheckedBuilds(Acted(c, s, w, action), x)
  {
    ListingShowsSave(s, t);
    if action.CheckFence? {
      if w.id.token < t {
        FenceClosedBefore(s, t, w.id.token);
      }
      assert FenceOpen(s, w.id.token) by {
        NewestIsNewestSaved(s);
      }
    }
  }

  /** `s'` is `s` with the write `p` replaced, and perhaps fewer versions. */
  ghost predicate Moved(s: System, s': System, p: nat, w': Write) {
    && p in s.writes && s'.writes == s.writes[p := w'] && s'.last == s.last
    && forall u :: u in s'.versions ==> u in s.versions && s'.versions[u] == s.versions[u]
  }

  lemma MovedBuilds(c: Config, s: System, s': System, p: nat, w': Write, t: nat, x: Snapshot)
    requires StoreInv(s) && StoreInv(s') && AllBuild(c, s, t, x) && Moved(s, s', p, w')
    requires WriteBuilds(c, s, t, x, w') && CheckedBuilds(w', x)
    ensures AllBuild(c, s', t, x)
  {
    NewestStillBuilds(s, s', x);
    forall v | ListedBuilds(c, s, x, Some(v)) ensures ListedBuilds(c, s', x, Some(v)) {
      ListedStillBuilds(c, s, s', x, v);
    }
    forall q | q in s'.writes ensures WriteBuilds(c, s', t, x, s'.writes[q]) {
      WriteStillBuilds(c, s, s', t, x, s'.writes[q]);
    }
  }

  lemma ActionEffect(c: Config, s: System, p: nat, action: Action)
    requires Enabled(c, s, Act(p, action)) && !action.RenameVersion?
    ensures Moved(s, Next(c, s, Act(p, action)), p, Acted(c, s, s.writes[p], action))
  {
  }

  lemma ActionBuilds(c: Config, s: System, p: nat, action: Action, t: nat, x: Snapshot)
    requires Enabled(c, s, Act(p, action)) && !action.RenameVersion? && EntersFresh(s)
    requires StoreInv(s) && StoreInv(Next(c, s, Act(p, action))) && t in s.last && AllBuild(c, s, t, x)
    ensures AllBuild(c, Next(c, s, Act(p, action)), t, x)
  {
    var w := s.writes[p];
    assert WriteBuilds(c, s, t, x, w);
    forall r | r in s.writes && t <= s.writes[r].id.token ensures CheckedBuilds(s.writes[r], x) {
      assert WriteBuilds(c, s, t, x, s.writes[r]);
    }
    ActorBuilds(c, s, w, action, t, x);
    ActionEffect(c, s, p, action);
    MovedBuilds(c, s, Next(c, s, Act(p, action)), p, Acted(c, s, w, action), t, x);
  }

  /** `s'` is `s` with some writes gone and some entering. */
  ghost predicate OnlyEntered(s: System, s': System) {
    && s'.versions == s.versions && s'.last == s.last
    && forall q :: q in s'.writes ==> s'.writes[q].stage.Entering? || (q in s.writes && s'.writes[q] == s.writes[q])
  }

  lemma EnteredBuilds(c: Config, s: System, s': System, t: nat, x: Snapshot)
    requires AllBuild(c, s, t, x) && OnlyEntered(s, s')
    ensures AllBuild(c, s', t, x)
  {
    forall v | ListedBuilds(c, s, x, Some(v)) ensures ListedBuilds(c, s', x, Some(v)) {
      ListedStillBuilds(c, s, s', x, v);
    }
    forall q | q in s'.writes ensures WriteBuilds(c, s', t, x, s'.writes[q]) {
      if !s'.writes[q].stage.Entering? {
        WriteStillBuilds(c, s, s', t, x, s.writes[q]);
      }
    }
  }

  lemma StepBuilds(c: Config, s: System, step: Step, t: nat, x: Snapshot)
    requires Enabled(c, s, step) && EntersFresh(s)
    requires StoreInv(s) && StoreInv(Next(c, s, step)) && t in s.last && AllBuild(c, s, t, x)
    ensures AllBuild(c, Next(c, s, step), t, x)
  {
    if step.Act? && step.action.RenameVersion? {
      RenameEffect(c, s, step.p);
      RenameBuilds(c, s, Next(c, s, step), step.p, s.writes[step.p].stage.io.next, t, x);
    } else if step.Act? {
      ActionBuilds(c, s, step.p, step.action, t, x);
    } else {
      EnteredBuilds(c, s, Next(c, s, step), t, x);
    }
  }

  lemma NothingPasses(c: Config, s: System, step: Step, t: nat, x: Snapshot)
    requires AllBuild(c, s, t, x)
    ensures !PassesOver(s, step, t, x)
  {
    if step.Act? && step.p in s.writes {
      assert WriteBuilds(c, s, t, x, s.writes[step.p]);
    }
  }

  ghost predicate Settled(c: Config, s: System, t: nat, x: Snapshot) {
    Inv(s) && EntersFresh(s) && t in s.last && AllBuild(c, s, t, x)
  }

  lemma StaysSettled(c: Config, s: System, s': System, t: nat, x: Snapshot)
    requires Settled(c, s, t, x) && Follows(c, s, s') && Inv(s') && EntersFresh(s')
    ensures Settled(c, s', t, x)
  {
    var step :| Enabled(c, s, step) && Next(c, s, step) == s';
    StepGrows(c, s, step);
    StepBuilds(c, s, step, t, x);
  }

  /** The same at one index of a run; stated so that the invariants stay out of sight in the induction. */
  ghost predicate SettledAt(c: Config, states: seq<System>, i: nat, t: nat, x: Snapshot) {
    i < |states| && forall s :: s == states[i] ==> Settled(c, s, t, x)
  }

  lemma StepStaysSettled(c: Config, states: seq<System>, j: nat, t: nat, x: Snapshot)
    requires IsRun(c, states) && c.keep >= 1 && j + 1 < |states| && SettledAt(c, states, j, t, x)
    ensures SettledAt(c, states, j + 1, t, x)
  {
    RunInv(c, states, j + 1);
    RunEntersFresh(c, states, j + 1);
    var s, s' := states[j], states[j + 1];
    assert FollowsAt(c, states, j + 1);
    assert Settled(c, s, t, x);
    StaysSettled(c, s, s', t, x);
  }

  /** Once everything builds on `x`, it does so forever. */
  lemma {:induction false} RunStaysSettled(c: Config, states: seq<System>, i: nat, j: nat, t: nat, x: Snapshot)
    requires IsRun(c, states) && c.keep >= 1 && i <= j < |states| && SettledAt(c, states, i, t, x)
    ensures SettledAt(c, states, j, t, x)
    decreases j
  {
    if i < j {
      RunStaysSettled(c, states, i, j - 1, t, x);
      StepStaysSettled(c, states, j - 1, t, x);
    }
  }

  lemma ContinuationBuilds(c: Config, states: seq<System>, longer: seq<System>, step: Step, t: nat, x: Snapshot)
    requires IsRun(c, longer) && c.keep >= 1 && states != [] && states <= longer
    requires t in states[|states| - 1].last && AllBuild(c, states[|states| - 1], t, x)
    ensures !Passes(c, longer, step, t, x)
  {
    var i, j := |states| - 1, |longer| - 1;
    assert longer[i] == states[i];
    RunInv(c, longer, i);
    RunEntersFresh(c, longer, i);
    RunStaysSettled(c, longer, i, j, t, x);
    var s := longer[j];
    assert Settled(c, s, t, x);
    NothingPasses(c, s, step, t, x);
  }

  lemma BuildingIsSafe(c: Config, states: seq<System>, t: nat, x: Snapshot)
    requires IsRun(c, states) && c.keep >= 1
    requires t in states[|states| - 1].last && AllBuild(c, states[|states| - 1], t, x)
    ensures !CanBePassedOver(c, states, t, x)
  {
    forall longer: seq<System>, step | states <= longer && IsRun(c, longer) ensures !Passes(c, longer, step, t, x) {
      ContinuationBuilds(c, states, longer, step, t, x);
    }
  }

  // ----- it is needed -----

  lemma PassedLater(c: Config, states: seq<System>, step: Step, t: nat, x: Snapshot)
    requires IsRun(c, states) && Enabled(c, states[|states| - 1], step)
    requires CanBePassedOver(c, states + [Next(c, states[|states| - 1], step)], t, x)
    ensures CanBePassedOver(c, states, t, x)
  {
    var next := states + [Next(c, states[|states| - 1], step)];
    var longer: seq<System>, last :| next <= longer && IsRun(c, longer) && Passes(c, longer, last, t, x);
    assert states <= longer;
  }

  lemma CheckPasses(c: Config, states: seq<System>, p: nat, t: nat, x: Snapshot)
    requires IsRun(c, states)
    requires var s := states[|states| - 1];
             p in s.writes && t <= s.writes[p].id.token && !CheckedBuilds(s.writes[p], x)
    ensures CanBePassedOver(c, states, t, x)
  {
    assert Passes(c, states, Act(p, RenameVersion), t, x);
  }

  /** The write is ready to save something that does not build on `x`. */
  ghost predicate ReadyToPass(s: System, p: nat, t: nat, x: Snapshot) {
    && p in s.writes && t <= s.writes[p].id.token && FenceOpen(s, s.writes[p].id.token)
    && s.writes[p].view.Some? && !(x <= s.writes[p].view.value)
  }

  lemma SomeEdit(view: Snapshot, x: Snapshot) returns (edit: nat)
    requires !(x <= view)
    ensures !(x <= view + [edit])
  {
    edit := if x == [] then 0 else x[|x| - 1] + 1;
    if |x| <= |view| {
      assert (view + [edit])[..|x|] == view[..|x|];
    } else {
      assert (view + [edit])[|view|] == edit;
    }
  }

  lemma ViewPasses(c: Config, states: seq<System>, p: nat, t: nat, x: Snapshot)
    requires IsRun(c, states) && c.keep >= 1
    requires var s := states[|states| - 1]; ReadyToPass(s, p, t, x) && s.writes[p].stage == Operating(Ready)
    ensures CanBePassedOver(c, states, t, x)
  {
    var s := states[|states| - 1];
    RunInv(c, states, |states| - 1);
    var edit := SomeEdit(s.writes[p].view.value, x);
    var step := Act(p, CheckFence(edit));
    RunStep(c, states, step);
    CheckPasses(c, states + [Next(c, s, step)], p, t, x);
    PassedLater(c, states, step, t, x);
  }

  lemma {:induction false} PruningPasses(c: Config, states: seq<System>, p: nat, t: nat, x: Snapshot)
    requires IsRun(c, states) && c.keep >= 1
    requires var s := states[|states| - 1];
             ReadyToPass(s, p, t, x) && s.writes[p].stage.Operating? && s.writes[p].stage.io.Pruning?
    ensures CanBePassedOver(c, states, t, x)
    decreases states[|states| - 1].writes[p].stage.io.doomed
  {
    var s := states[|states| - 1];
    var doomed := s.writes[p].stage.io.doomed;
    if doomed == {} {
      RunStep(c, states, Act(p, EndPrune));
      ViewPasses(c, states + [Next(c, s, Act(p, EndPrune))], p, t, x);
      PassedLater(c, states, Act(p, EndPrune), t, x);
    } else {
      var d :| d in doomed;
      var step := Act(p, DeleteVersion(d, false));
      RunStep(c, states, step);
      PruningPasses(c, states + [Next(c, s, step)], p, t, x);
      PassedLater(c, states, step, t, x);
    }
  }

  lemma WrittenPasses(c: Config, states: seq<System>, p: nat, t: nat, x: Snapshot)
    requires IsRun(c, states) && c.keep >= 1
    requires var s := states[|states| - 1]; ReadyToPass(s, p, t, x) && s.writes[p].stage == Operating(Written)
    ensures CanBePassedOver(c, states, t, x)
  {
    var s := states[|states| - 1];
    RunStep(c, states, Act(p, ListForPrune));
    PruningPasses(c, states + [Next(c, s, Act(p, ListForPrune))], p, t, x);
    PassedLater(c, states, Act(p, ListForPrune), t, x);
  }

  /** The listing the write has taken yields, when it is read now, something that does not build on `x`. */
  ghost predicate LoadsPassing(c: Config, s: System, p: nat, t: nat, x: Snapshot) {
    && p in s.writes && t <= s.writes[p].id.token && FenceOpen(s, s.writes[p].id.token)
    && s.writes[p].stage.Operating? && s.writes[p].stage.io.Listed?
    && match s.writes[p].stage.io.newest
       case None => !(x <= c.base)
       case Some(v) => v in s.versions && !(x <= s.versions[v])
  }

  lemma LoadPasses(c: Config, states: seq<System>, p: nat, t: nat, x: Snapshot)
    requires IsRun(c, states) && c.keep >= 1 && LoadsPassing(c, states[|states| - 1], p, t, x)
    ensures CanBePassedOver(c, states, t, x)
  {
    var s := states[|states| - 1];
    RunStep(c, states, Act(p, LoadFile));
    ViewPasses(c, states + [Next(c, s, Act(p, LoadFile))], p, t, x);
    PassedLater(c, states, Act(p, LoadFile), t, x);
  }

  /** A stalled process renames its version file into place just before it is read. */
  lemma RenameThenLoadPasses(c: Config, states: seq<System>, p: nat, r: nat, t: nat, x: Snapshot)
    requires IsRun(c, states) && c.keep >= 1 && t in states[|states| - 1].last
    requires var s := states[|states| - 1];
             && p in s.writes && t <= s.writes[p].id.token && FenceOpen(s, s.writes[p].id.token)
             && r in s.writes && !CheckedBuilds(s.writes[r], x)
             && s.writes[p].stage == Operating(Listed(Some(s.writes[r].id.token)))
    ensures CanBePassedOver(c, states, t, x)
  {
    var s := states[|states| - 1];
    if t <= s.writes[r].id.token {
      CheckPasses(c, states, r, t, x);
    } else {
      var step := Act(r, RenameVersion);
      RenameEffect(c, s, r);
      RunStep(c, states, step);
      LoadPasses(c, states + [Next(c, s, step)], p, t, x);
      PassedLater(c, states, step, t, x);
    }
  }

  lemma ListedPasses(c: Config, states: seq<System>, p: nat, t: nat, x: Snapshot)
    requires IsRun(c, states) && c.keep >= 1 && t in states[|states| - 1].last
    requires var s := states[|states| - 1];
             && p in s.writes && t <= s.writes[p].id.token && FenceOpen(s, s.writes[p].id.token)
             && s.writes[p].stage.Operating? && s.writes[p].stage.io.Listed?
             && !ListedBuilds(c, s, x, s.writes[p].stage.io.newest)
    ensures CanBePassedOver(c, states, t, x)
  {
    var s := states[|states| - 1];
    if LoadsPassing(c, s, p, t, x) {
      LoadPasses(c, states, p, t, x);
    } else {
      var v := s.writes[p].stage.io.newest.value;
      var r :| r in s.writes && s.writes[r].id.token == v && !CheckedBuilds(s.writes[r], x);
      RenameThenLoadPasses(c, states, p, r, t, x);
    }
  }

  lemma WritePasses(c: Config, states: seq<System>, p: nat, t: nat, x: Snapshot)
    requires IsRun(c, states) && c.keep >= 1 && t in states[|states| - 1].last
    requires var s := states[|states| - 1]; p in s.writes && !WriteBuilds(c, s, t, x, s.writes[p])
    ensures CanBePassedOver(c, states, t, x)
  {
    var w := states[|states| - 1].writes[p];
    if !CheckedBuilds(w, x) {
      CheckPasses(c, states, p, t, x);
    } else if w.stage.io.Listed? {
      ListedPasses(c, states, p, t, x);
    } else if w.stage.io.Ready? {
      ViewPasses(c, states, p, t, x);
    } else if w.stage.io.Written? {
      WrittenPasses(c, states, p, t, x);
    } else {
      PruningPasses(c, states, p, t, x);
    }
  }

  /** A process that has just taken the lease goes through its checks and lists the versions. */
  lemma ChecksPass(c: Config, states: seq<System>, p: nat, checks: nat, t: nat, x: Snapshot)
    requires IsRun(c, states) && c.keep >= 1 && t in states[|states| - 1].last && checks <= 1
    requires var s := states[|states| - 1];
             && p in s.writes && Holds(s.lease.dir, s.writes[p].id, s.clock)
             && s.writes[p].stage == Entering(checks) && !NewestBuilds(s, x)
    ensures CanBePassedOver(c, states, t, x)
    decreases 1 - checks
  {
    var s := states[|states| - 1];
    var next := states + [Next(c, s, Act(p, AssertValid))];
    RunStep(c, states, Act(p, AssertValid));
    if checks == 0 {
      ChecksPass(c, next, p, 1, t, x);
    } else {
      OwnerPasses(c, next, p, t, x);
    }
    PassedLater(c, states, Act(p, AssertValid), t, x);
  }

  lemma OwnerPasses(c: Config, states: seq<System>, p: nat, t: nat, x: Snapshot)
    requires IsRun(c, states) && c.keep >= 1 && t in states[|states| - 1].last
    requires var s := states[|states| - 1];
             && p in s.writes && SameLease(s.lease.dir, s.writes[p].id)
             && s.writes[p].stage == Operating(Ready) && !NewestBuilds(s, x)
    ensures CanBePassedOver(c, states, t, x)
  {
    var s := states[|states| - 1];
    var next := states + [Next(c, s, Act(p, ListForLoad))];
    RunInv(c, states, |states| - 1);
    RunStep(c, states, Act(p, ListForLoad));
    LoadPasses(c, next, p, t, x);
    PassedLater(c, states, Act(p, ListForLoad), t, x);
  }

  lemma FreeLeasePasses(c: Config, states: seq<System>, t: nat, x: Snapshot)
    requires IsRun(c, states) && c.keep >= 1 && c.leaseMs > 0
    requires var s := states[|states| - 1]; t in s.last && s.lease.dir.Absent? && !NewestBuilds(s, x)
    ensures CanBePassedOver(c, states, t, x)
  {
    var s := states[|states| - 1];
    var p: nat := match Newest(s.writes.Keys) case None => 0 case Some(top) => top + 1;
    var step := Acquire(p, "");
    RunStep(c, states, step);
    ChecksPass(c, states + [Next(c, s, step)], p, 0, t, x);
    PassedLater(c, states, step, t, x);
  }

  lemma StaleLeasePasses(c: Config, states: seq<System>, t: nat, x: Snapshot)
    requires IsRun(c, states) && c.keep >= 1 && c.leaseMs > 0
    requires var s := states[|states| - 1];
             t in s.last && IsStale(s.lease.dir, s.clock, c.leaseMs) && !NewestBuilds(s, x)
    ensures CanBePassedOver(c, states, t, x)
  {
    var s := states[|states| - 1];
    RunStep(c, states, TakeOver);
    FreeLeasePasses(c, states + [Next(c, s, TakeOver)], t, x);
    PassedLater(c, states, TakeOver, t, x);
  }

  lemma NewestPasses(c: Config, states: seq<System>, t: nat, x: Snapshot)
    requires IsRun(c, states) && c.keep >= 1 && c.leaseMs > 0
    requires var s := states[|states| - 1]; t in s.last && !NewestBuilds(s, x)
    ensures CanBePassedOver(c, states, t, x)
  {
    var s := states[|states| - 1];
    if s.lease.dir.Absent? {
      FreeLeasePasses(c, states, t, x);
    } else {
      var end := if s.lease.dir.Owned? then s.lease.dir.record.expiresAt else s.lease.dir.since + c.leaseMs;
      var step := Tick(if end > s.clock then end - s.clock else 0);
      RunStep(c, states, step);
      StaleLeasePasses(c, states + [Next(c, s, step)], t, x);
      PassedLater(c, states, step, t, x);
    }
  }

  // ----- main result -----

  /** From a state of a run in which the token `t` has saved, some continuation has a process with this token or
      a later one save something that does not build on `x`, if and only if the newest version does not build on
      `x` already, or such a process has passed its fence check with something that does not, or still can pass
      one and has a view, or a listing to load, that does not. */
  lemma PassedOverIff(c: Config, states: seq<System>, t: nat, x: Snapshot)
    requires IsRun(c, states) && c.keep >= 1 && c.leaseMs > 0
    requires t in states[|states| - 1].last
    ensures CanBePassedOver(c, states, t, x) <==> !AllBuild(c, states[|states| - 1], t, x)
  {
    var s := states[|states| - 1];
    if AllBuild(c, s, t, x) {
      BuildingIsSafe(c, states, t, x);
    } else if !NewestBuilds(s, x) {
      NewestPasses(c, states, t, x);
    } else {
      var p :| p in s.writes && !WriteBuilds(c, s, t, x, s.writes[p]);
      WritePasses(c, states, p, t, x);
    }
  }

  /** A save just renamed under a token that is no longer the newest drawn is safe all the same, while no process
      runs under a later one and none has saved. */
  lemma NobodyAheadIsSafe(c: Config, states: seq<System>, p: nat)
    requires IsRun(c, states) && c.keep >= 1 && c.leaseMs > 0
    requires var s := states[|states| - 1];
             && p in s.writes && s.writes[p].stage == Operating(Written) && s.writes[p].view == s.writes[p].saved
             && s.writes[p].saved.Some?
             && (forall q :: q in s.writes ==> s.writes[q].id.token <= s.writes[p].id.token)
             && FenceOpen(s, s.writes[p].id.token)
    ensures var w := states[|states| - 1].writes[p]; !CanBePassedOver(c, states, w.id.token, w.saved.value)
  {
    var s := states[|states| - 1];
    var t, x := s.writes[p].id.token, s.writes[p].saved.value;
    RunInv(c, states, |states| - 1);
    assert WriteStoreInv(s.last, s.writes[p]);
    NewestUnique(t, s.last.Keys);
    NewestIsNewestSaved(s);
    forall q | q in s.writes ensures WriteBuilds(c, s, t, x, s.writes[q]) {
      assert q != p ==> s.writes[q].id.token < t;
    }
    PassedOverIff(c, states, t, x);
  }
}
