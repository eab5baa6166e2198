/**
 The versioned snapshot directory of src/coordination/fencedSnapshotStore.js: one file per fencing
 token, listed newest token first.

 A snapshot is modelled by its lineage, the edits that produced it in order. One snapshot descends
 from another when the other's lineage is a prefix of its own (Dafny's `<=` on sequences).
 */
module FencedStore {
  import opened Prelude

  type Snapshot = seq<nat>

  type Versions = map<nat, Snapshot>

  function Above(tokens: set<nat>, token: nat): set<nat> {
    set t | t in tokens && token < t
  }

  ghost predicate IsNewest(token: nat, tokens: set<nat>) {
    token in tokens && forall t :: t in tokens ==> t <= token
  }

  /** The newest version file, as `listVersions(...)[0] ?? null`. */
  ghost function Newest(tokens: set<nat>): (newest: Option<nat>)
    ensures newest.None? <==> tokens == {}
    ensures newest.Some? ==> IsNewest(newest.value, tokens)
  {
    if tokens == {} then
      None
    else
      var t :| t in tokens;
      var rest := Newest(tokens - {t});
      assert forall u :: u in tokens ==> u == t || u in tokens - {t};
      if rest.Some? && t < rest.value then rest else Some(t)
  }

  lemma NewestUnique(token: nat, tokens: set<nat>)
    requires IsNewest(token, tokens)
    ensures Newest(tokens) == Some(token)
  {
    assert Newest(tokens).Some?;
  }

  /** The versions `pruneVersions` would delete: those with at least `keep` newer ones. */
  ghost function Doomed(tokens: set<nat>, keep: nat): set<nat> {
    set t | t in tokens && |Above(tokens, t)| >= keep
  }

  ghost function Kept(versions: Versions, keep: nat): Versions {
    versions - Doomed(versions.Keys, keep)
  }

  /** Pruning never deletes the newest version. */
  lemma NewestNotDoomed(tokens: set<nat>, keep: nat, token: nat)
    requires keep >= 1 && token in Doomed(tokens, keep)
    ensures exists t :: t in tokens && token < t
  {
    assert Above(tokens, token) != {};
    var t :| t in Above(tokens, token);
  }

  ghost predicate Descending(xs: seq<nat>) {
    forall i, j :: 0 <= i < j < |xs| ==> xs[i] > xs[j]
  }

  lemma {:induction false} AboveInListing(xs: seq<nat>, tokens: set<nat>, i: nat)
    requires Descending(xs) && (forall t :: t in xs <==> t in tokens) && i < |xs|
    ensures |Above(tokens, xs[i])| == i
  {
    if i == 0 {
      assert Above(tokens, xs[0]) == {};
    } else {
      AboveInListing(xs, tokens, i - 1);
      assert xs[i - 1] in xs;
      forall t ensures t in Above(tokens, xs[i]) <==> t in Above(tokens, xs[i - 1]) + {xs[i - 1]} {
        if t in tokens {
          var k :| 0 <= k < |xs| && xs[k] == t;
        }
      }
      assert Above(tokens, xs[i]) == Above(tokens, xs[i - 1]) + {xs[i - 1]};
    }
  }

  /** What slicing the descending listing at `keep` selects. */
  lemma SliceIsDoomed(xs: seq<nat>, tokens: set<nat>, keep: nat)
    requires Descending(xs) && (forall t :: t in xs <==> t in tokens) && keep <= |xs|
    ensures forall t :: t in xs[keep..] <==> t in Doomed(tokens, keep)
  {
    forall t ensures t in xs[keep..] <==> t in Doomed(tokens, keep) {
      if t in tokens {
        var k :| 0 <= k < |xs| && xs[k] == t;
        AboveInListing(xs, tokens, k);
        assert k >= keep ==> xs[keep..][k - keep] == t;
        assert forall j :: 0 <= j < |xs[keep..]| ==> xs[keep..][j] == xs[keep + j];
      }
    }
  }

  lemma NothingDoomed(xs: seq<nat>, tokens: set<nat>, keep: nat)
    requires Descending(xs) && (forall t :: t in xs <==> t in tokens) && |xs| <= keep
    ensures Doomed(tokens, keep) == {}
  {
    forall t | t in tokens ensures t !in Doomed(tokens, keep) {
      var k :| 0 <= k < |xs| && xs[k] == t;
      AboveInListing(xs, tokens, k);
    }
  }

  datatype SaveResult = Stored | FenceRejected(latest: nat)

  class FencedSnapshotStore {
    const keep: nat
    const base: Snapshot  // what the wrapped store reads while no fenced version exists
    var versions: Versions

    ghost predicate Valid()
      reads this
    {
      keep >= 2
    }

    constructor (keep: nat, base: Snapshot)
      requires keep >= 2
      ensures Valid() && this.keep == keep && this.base == base && versions == map[]
    {
      this.keep := keep;
      this.base := base;
      this.versions := map[];
    }

    method ListVersions() returns (tokens: seq<nat>)
      ensures Descending(tokens)
      ensures forall t :: t in tokens <==> t in versions
      ensures |tokens| == |versions|
    {
      var ascending := ReadSorted(versions.Keys);
      tokens := [];
      var i := 0;
      while i < |ascending|
        invariant i <= |ascending| && |tokens| == i
        invariant forall k :: 0 <= k < i ==> tokens[k] == ascending[i - 1 - k]
      {
        tokens := [ascending[i]] + tokens;
        i := i + 1;
      }
      forall k | 0 <= k < |tokens| ensures tokens[k] in versions {
        assert ascending[i - 1 - k] in ascending;
      }
      forall t | t in versions ensures t in tokens {
        var k :| 0 <= k < |ascending| && ascending[k] == t;
        assert tokens[i - 1 - k] == t;
      }
      ListingSize(tokens, versions.Keys);
      assert |versions| == |versions.Keys|;
    }

    method ReadEncrypted() returns (snapshot: Snapshot)
      ensures versions == map[] ==> snapshot == base
      ensures forall t :: IsNewest(t, versions.Keys) ==> snapshot == versions[t]
    {
      var tokens := ListVersions();
      if tokens == [] {
        snapshot := base;
      } else {
        assert tokens[0] in tokens;
        snapshot := versions[tokens[0]];
        forall t | IsNewest(t, versions.Keys) ensures t == tokens[0] {
          var k :| 0 <= k < |tokens| && tokens[k] == t;
        }
      }
    }

    method PruneVersions()
      requires Valid()
      modifies this`versions
      ensures versions == Kept(old(versions), keep)
    {
      var tokens := ListVersions();
      if |tokens| <= keep {
        NothingDoomed(tokens, versions.Keys, keep);
        return;
      }
      SliceIsDoomed(tokens, versions.Keys, keep);
      assert Items(tokens[keep..]) == Doomed(versions.Keys, keep);
      DeleteVersions(tokens[keep..]);
    }

    method DeleteVersions(doomed: seq<nat>)
      modifies this`versions
      ensures versions == old(versions) - Items(doomed)
    {
      ghost var before := versions;
      var i := 0;
      while i < |doomed|
        invariant i <= |doomed| && versions == before - Items(doomed[..i])
      {
        WithoutNext(before, doomed, i);
        versions := versions - {doomed[i]};
        i := i + 1;
      }
      assert doomed[..i] == doomed;
    }

    /** A save under an older token than the newest version changes nothing; any other save is the
        newest version afterwards, and only versions with `keep` newer ones are gone. */
    method Save(token: nat, snapshot: Snapshot) returns (result: SaveResult)
      requires Valid()
      modifies this`versions
      ensures result.FenceRejected? <==> exists t :: t in old(versions) && token < t
      ensures result.FenceRejected? ==> versions == old(versions) && IsNewest(result.latest, versions.Keys)
      ensures result.Stored? ==> versions == Kept(old(versions)[token := snapshot], keep)
      ensures result.Stored? ==> IsNewest(token, versions.Keys) && versions[token] == snapshot
    {
      var tokens := ListVersions();
      if tokens != [] && token < tokens[0] {
        assert tokens[0] in tokens;
        forall t | t in versions ensures t <= tokens[0] {
          var k :| 0 <= k < |tokens| && tokens[k] == t;
        }
        return FenceRejected(tokens[0]);
      }
      forall t | t in versions ensures t <= token {
        var k :| 0 <= k < |tokens| && tokens[k] == t;
      }
      versions := versions[token := snapshot];
      assert Above(versions.Keys, token) == {};
      PruneVersions();
      result := Stored;
    }
  }

  lemma {:induction false} ListingSize(xs: seq<nat>, tokens: set<nat>)
    requires Descending(xs) && (forall t :: t in xs <==> t in tokens)
    ensures |xs| == |tokens|
    decreases |xs|
  {
    if xs == [] {
      assert tokens == {};
    } else {
      assert xs[0] in xs;
      var rest := tokens - {xs[0]};
      forall t ensures t in xs[1..] <==> t in rest {
        assert t in xs <==> t == xs[0] || t in xs[1..];
      }
      ListingSize(xs[1..], rest);
    }
  }
}
