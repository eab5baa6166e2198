/**
 Retention limits: every store sorts some of its records by a timestamp, ties by name, and removes the
 oldest ones over a limit.
 */
module Retention {
  import opened Prelude

  predicate Newer(ages: map<nat, int>, a: nat, b: nat)
    requires a in ages && b in ages
  {
    ages[a] > ages[b] || (ages[a] == ages[b] && a > b)
  }

  function NewerThan(ages: map<nat, int>, id: nat): set<nat>
    requires id in ages
  {
    set other | other in ages && Newer(ages, other, id)
  }

  /** What a retention limit drops: the records with at least `limit` newer ones. */
  function Excess(ages: map<nat, int>, limit: nat): set<nat> {
    set id | id in ages && |NewerThan(ages, id)| >= limit
  }

  ghost predicate OldestFirst(ages: map<nat, int>, rows: seq<nat>) {
    && (forall id :: id in rows ==> id in ages)
    && (forall i, j :: 0 <= i < j < |rows| ==> rows[i] in ages && rows[j] in ages && Newer(ages, rows[j], rows[i]))
  }

  method Oldest(ages: map<nat, int>, ids: set<nat>) returns (oldest: nat)
    requires ids != {} && ids <= ages.Keys
    ensures oldest in ids
    ensures forall id :: id in ids && id != oldest ==> Newer(ages, id, oldest)
  {
    var some :| some in ids;
    oldest := some;
    var rest := ids - {some};
    while rest != {}
      invariant rest <= ids && oldest in ids
      invariant forall id :: id in ids ==> id in rest || id == oldest || Newer(ages, id, oldest)
      decreases rest
    {
      var next :| next in rest;
      rest := rest - {next};
      if Newer(ages, oldest, next) {
        oldest := next;
      }
    }
  }

  method SortOldestFirst(ages: map<nat, int>) returns (rows: seq<nat>)
    ensures OldestFirst(ages, rows) && forall id :: id in rows <==> id in ages
  {
    rows := [];
    var rest := ages.Keys;
    while rest != {}
      invariant rest <= ages.Keys
      invariant forall id :: id in rows <==> id in ages && id !in rest
      invariant OldestFirst(ages, rows)
      invariant forall i, id :: 0 <= i < |rows| && id in rest ==> rows[i] in ages && Newer(ages, id, rows[i])
      decreases rest
    {
      var first := Oldest(ages, rest);
      rows := rows + [first];
      rest := rest - {first};
    }
  }

  /** The row at index `i` of `n` has `n - 1 - i` newer ones. */
  lemma {:induction false} NewerCount(ages: map<nat, int>, rows: seq<nat>, i: nat)
    requires OldestFirst(ages, rows) && (forall id :: id in rows <==> id in ages) && i < |rows|
    ensures rows[i] in ages && |NewerThan(ages, rows[i])| == |rows| - 1 - i
    decreases |rows| - i
  {
    assert rows[i] in rows;
    if i == |rows| - 1 {
      forall id ensures id !in NewerThan(ages, rows[i]) {
        if id in ages {
          var k :| 0 <= k < |rows| && rows[k] == id;
        }
      }
      assert NewerThan(ages, rows[i]) == {};
    } else {
      NewerCount(ages, rows, i + 1);
      forall id ensures id in NewerThan(ages, rows[i]) <==> id in NewerThan(ages, rows[i + 1]) + {rows[i + 1]} {
        if id in ages {
          var k :| 0 <= k < |rows| && rows[k] == id;
        }
      }
      assert NewerThan(ages, rows[i]) == NewerThan(ages, rows[i + 1]) + {rows[i + 1]};
    }
  }

  function Cut(rows: seq<nat>, limit: nat): nat {
    if |rows| > limit then |rows| - limit else 0
  }

  /** Removing the first rows over the limit removes exactly the excess. */
  lemma ExcessRows(ages: map<nat, int>, rows: seq<nat>, limit: nat)
    requires OldestFirst(ages, rows) && forall id :: id in rows <==> id in ages
    ensures forall id :: id in rows[..Cut(rows, limit)] <==> id in Excess(ages, limit)
  {
    var cut := Cut(rows, limit);
    forall id ensures id in rows[..cut] <==> id in Excess(ages, limit) {
      if id in rows {
        var k :| 0 <= k < |rows| && rows[k] == id;
        NewerCount(ages, rows, k);
        assert k < cut ==> rows[..cut][k] == id;
        if id in rows[..cut] {
          var m :| 0 <= m < cut && rows[..cut][m] == id;
          assert m == k;
        }
      }
    }
  }

  /** A limit keeps as many records as it allows. */
  lemma ExcessSize(ages: map<nat, int>, rows: seq<nat>, limit: nat)
    requires OldestFirst(ages, rows) && forall id :: id in rows <==> id in ages
    ensures |ages.Keys| == |rows|
    ensures |ages.Keys - Excess(ages, limit)| == if |rows| > limit then limit else |rows|
  {
    var cut := Cut(rows, limit);
    ExcessRows(ages, rows, limit);
    DistinctSize(rows, ages.Keys);
    forall i, j | cut <= i < j < |rows| ensures rows[i] != rows[j] {
    }
    forall id ensures id in rows[cut..] <==> id in ages.Keys - Excess(ages, limit) {
      SplitDistinct(rows, cut, id);
    }
    DistinctSize(rows[cut..], ages.Keys - Excess(ages, limit));
  }

  lemma {:induction false} DistinctSize(rows: seq<nat>, ids: set<nat>)
    requires forall i, j :: 0 <= i < j < |rows| ==> rows[i] != rows[j]
    requires forall id :: id in rows <==> id in ids
    ensures |rows| == |ids|
    decreases |rows|
  {
    if rows == [] {
      assert ids == {};
    } else {
      assert rows[0] in rows;
      forall id ensures id in rows[1..] <==> id in ids - {rows[0]} {
        assert id in rows <==> id == rows[0] || id in rows[1..];
      }
      DistinctSize(rows[1..], ids - {rows[0]});
    }
  }

  lemma SplitDistinct(rows: seq<nat>, cut: nat, id: nat)
    requires cut <= |rows| && forall i, j :: 0 <= i < j < |rows| ==> rows[i] != rows[j]
    ensures id in rows[cut..] <==> id in rows && id !in rows[..cut]
  {
    assert rows == rows[..cut] + rows[cut..];
    if id in rows[cut..] {
      var j :| 0 <= j < |rows[cut..]| && rows[cut..][j] == id;
      forall i | 0 <= i < cut ensures rows[..cut][i] != id {
        assert rows[i] != rows[cut + j];
      }
    }
  }

  lemma FirstRows(ages: map<nat, int>, rows: seq<nat>, cut: nat)
    requires OldestFirst(ages, rows) && cut <= |rows|
    ensures forall i :: 0 <= i < cut ==> rows[..cut][i] in ages
    ensures forall i, j :: 0 <= i < j < cut ==> rows[..cut][i] != rows[..cut][j]
  {
    forall i | 0 <= i < cut ensures rows[..cut][i] in ages {
      assert rows[i] in rows;
    }
  }

  lemma FirstListed(rows: seq<nat>, cut: nat)
    requires Ascending(rows) && cut <= |rows|
    ensures forall i :: 0 <= i < cut ==> rows[..cut][i] in rows
    ensures forall i, j :: 0 <= i < j < cut ==> rows[..cut][i] != rows[..cut][j]
  {
  }

  /** A record is over the limit only when there are more records than that. */
  lemma ExcessOnlyWhenOver(ages: map<nat, int>, limit: nat, id: nat)
    requires id in Excess(ages, limit)
    ensures |ages.Keys| > limit
  {
    assert id !in NewerThan(ages, id);
    SubsetSize(NewerThan(ages, id), ages.Keys - {id});
  }

  /** What goes is no younger than what stays. */
  lemma ExcessOldest(ages: map<nat, int>, limit: nat, gone: nat, stays: nat)
    requires gone in Excess(ages, limit) && stays in ages && stays !in Excess(ages, limit)
    ensures ages[gone] < ages[stays] || (ages[gone] == ages[stays] && gone < stays)
  {
    if !Newer(ages, stays, gone) {
      assert NewerThan(ages, gone) <= NewerThan(ages, stays);
      SubsetSize(NewerThan(ages, gone), NewerThan(ages, stays));
    }
  }

  // ----- cutting back twice -----

  lemma {:induction false} OldestExists(ages: map<nat, int>, ids: set<nat>) returns (oldest: nat)
    requires ids != {} && ids <= ages.Keys
    ensures oldest in ids && forall id :: id in ids && id != oldest ==> Newer(ages, id, oldest)
    decreases ids
  {
    var some :| some in ids;
    oldest := some;
    var rest := ids - {some};
    assert forall id :: id in ids ==> id == some || id in rest;
    if rest != {} {
      var other := OldestExists(ages, rest);
      oldest := if Newer(ages, some, other) then other else some;
      forall id | id in ids && id != oldest ensures Newer(ages, id, oldest) {
        assert id == some || id == other || Newer(ages, id, other);
      }
    }
  }

  lemma {:induction false} SortedRows(ages: map<nat, int>, ids: set<nat>) returns (rows: seq<nat>)
    requires ids <= ages.Keys
    ensures OldestFirst(ages, rows) && forall id :: id in rows <==> id in ids
    decreases ids
  {
    if ids == {} {
      rows := [];
    } else {
      var oldest := OldestExists(ages, ids);
      var newer := SortedRows(ages, ids - {oldest});
      rows := [oldest] + newer;
      forall j | 0 <= j < |newer| ensures Newer(ages, newer[j], oldest) {
        assert newer[j] in newer;
      }
    }
  }

  /** Where something was dropped, the limit is full. */
  lemma KeptWhenDropped(ages: map<nat, int>, limit: nat, id: nat)
    requires id in Excess(ages, limit)
    ensures |ages.Keys - Excess(ages, limit)| == limit
  {
    var rows := SortedRows(ages, ages.Keys);
    ExcessSize(ages, rows, limit);
    ExcessOnlyWhenOver(ages, limit, id);
  }

  lemma CutSize(ages: map<nat, int>, limit: nat)
    ensures |ages.Keys - Excess(ages, limit)| == if |ages.Keys| > limit then limit else |ages.Keys|
  {
    var rows := SortedRows(ages, ages.Keys);
    ExcessSize(ages, rows, limit);
  }

  lemma NewerThanGrows(some: map<nat, int>, all: map<nat, int>, id: nat)
    requires id in some && forall other :: other in some ==> other in all && all[other] == some[other]
    ensures NewerThan(some, id) <= NewerThan(all, id) && |NewerThan(some, id)| <= |NewerThan(all, id)|
  {
    SubsetSize(NewerThan(some, id), NewerThan(all, id));
  }

  /** What is dropped when records are cut back, more arrive, and all are cut back again, is what would be
      dropped if all had been there from the start. */
  lemma CutTwice(first: map<nat, int>, more: map<nat, int>, limit: nat)
    requires first.Keys !! more.Keys
    ensures Excess(first + more, limit) == Excess(first, limit) + Excess((first - Excess(first, limit)) + more, limit)
  {
    var gone := Excess(first, limit);
    var all, kept := first + more, (first - gone) + more;
    forall id ensures id in Excess(all, limit) <==> id in gone || id in Excess(kept, limit) {
      if id in first {
        NewerThanGrows(first, all, id);
      }
      if id in kept {
        NewerThanGrows(kept, all, id);
      }
      if id in Excess(all, limit) && id !in gone {
        StillDropped(first, more, limit, id);
      }
    }
  }

  lemma StillDropped(first: map<nat, int>, more: map<nat, int>, limit: nat, id: nat)
    requires first.Keys !! more.Keys
    requires id in Excess(first + more, limit) && id !in Excess(first, limit)
    ensures id in Excess((first - Excess(first, limit)) + more, limit)
  {
    var gone := Excess(first, limit);
    var all, kept := first + more, (first - gone) + more;
    if NewerThan(all, id) !! gone {
      assert NewerThan(all, id) <= NewerThan(kept, id);
      SubsetSize(NewerThan(all, id), NewerThan(kept, id));
    } else {
      var z :| z in NewerThan(all, id) && z in gone;
      if id in first {
        assert NewerThan(first, z) <= NewerThan(first, id);
        SubsetSize(NewerThan(first, z), NewerThan(first, id));
      } else {
        forall w | w in first.Keys - gone ensures w in NewerThan(kept, id) {
          if !Newer(first, w, z) {
            assert NewerThan(first, z) <= NewerThan(first, w);
            SubsetSize(NewerThan(first, z), NewerThan(first, w));
          }
        }
        KeptWhenDropped(first, limit, z);
        SubsetSize(first.Keys - gone, NewerThan(kept, id));
      }
    }
  }

  // ----- cutting back by name -----

  /** None of the names over the limit is younger than any of the others. */
  ghost predicate FirstNamesOldest(ages: map<nat, int>, names: seq<nat>, limit: nat) {
    forall a, b :: a in names[..Cut(names, limit)] && b in names[Cut(names, limit)..] ==>
      a in ages && b in ages && ages[a] <= ages[b]
  }

  /** Dropping the first names instead of the oldest records drops the same ones exactly then. */
  lemma NamesAreOldestIff(ages: map<nat, int>, names: seq<nat>, limit: nat)
    requires Lists(names, ages.Keys)
    ensures Items(names[..Cut(names, limit)]) == Excess(ages, limit) <==> FirstNamesOldest(ages, names, limit)
  {
    var cut := Cut(names, limit);
    if FirstNamesOldest(ages, names, limit) {
      OldNamesAreExcess(ages, names, limit);
    } else {
      var a, b :| a in names[..cut] && b in names[cut..] && !(a in ages && b in ages && ages[a] <= ages[b]);
      YoungNameNotInExcess(ages, names, cut, a, b, limit);
    }
  }

  lemma YoungNameNotInExcess(ages: map<nat, int>, names: seq<nat>, cut: nat, a: nat, b: nat, limit: nat)
    requires Lists(names, ages.Keys) && cut <= |names| && a in names[..cut] && b in names[cut..]
    requires !(a in ages && b in ages && ages[a] <= ages[b])
    ensures Items(names[..cut]) != Excess(ages, limit)
  {
    assert a in names && b in names;
    SplitDistinct(names, cut, b);
    assert a in Items(names[..cut]) && b !in Items(names[..cut]);
    assert NewerThan(ages, a) <= NewerThan(ages, b);
    SubsetSize(NewerThan(ages, a), NewerThan(ages, b));
  }

  lemma OldNamesAreExcess(ages: map<nat, int>, names: seq<nat>, limit: nat)
    requires Lists(names, ages.Keys)
    requires FirstNamesOldest(ages, names, limit)
    ensures Items(names[..Cut(names, limit)]) == Excess(ages, limit)
  {
    var cut := Cut(names, limit);
    forall id ensures id in Items(names[..cut]) <==> id in Excess(ages, limit) {
      if id in names {
        SplitDistinct(names, cut, id);
        if id in names[..cut] {
          FirstNameInExcess(ages, names, cut, id);
        } else {
          OtherNameNotInExcess(ages, names, cut, id);
        }
      }
    }
  }

  lemma RestSize(names: seq<nat>, cut: nat)
    requires Ascending(names) && cut <= |names|
    ensures |Items(names[cut..])| == |names| - cut
  {
    var rest := names[cut..];
    forall i, j | 0 <= i < j < |rest| ensures rest[i] != rest[j] {
      assert rest[i] == names[cut + i] && rest[j] == names[cut + j];
    }
    DistinctSize(rest, Items(rest));
  }

  lemma FirstNameInExcess(ages: map<nat, int>, names: seq<nat>, cut: nat, id: nat)
    requires Lists(names, ages.Keys) && cut <= |names| && id in names && id in names[..cut]
    requires forall b :: b in names[cut..] ==> b in ages && ages[id] <= ages[b]
    ensures |NewerThan(ages, id)| >= |names| - cut
  {
    RestSize(names, cut);
    forall b | b in Items(names[cut..]) ensures b in NewerThan(ages, id) {
      FirstBeforeRest(names, cut, id, b);
    }
    SubsetSize(Items(names[cut..]), NewerThan(ages, id));
  }

  lemma OtherNameNotInExcess(ages: map<nat, int>, names: seq<nat>, cut: nat, id: nat)
    requires Lists(names, ages.Keys) && cut <= |names| && id in names && id in names[cut..]
    requires forall a :: a in names[..cut] ==> a in ages && ages[a] <= ages[id]
    ensures |NewerThan(ages, id)| < |names| - cut
  {
    RestSize(names, cut);
    assert names == names[..cut] + names[cut..];
    forall b | b in NewerThan(ages, id) ensures b in Items(names[cut..]) - {id} {
      assert b in names;
      if b in names[..cut] {
        FirstBeforeRest(names, cut, b, id);
      }
    }
    SubsetSize(NewerThan(ages, id), Items(names[cut..]) - {id});
  }

  lemma FirstBeforeRest(names: seq<nat>, cut: nat, a: nat, b: nat)
    requires Ascending(names) && cut <= |names| && a in names[..cut] && b in names[cut..]
    ensures a < b
  {
    var i :| 0 <= i < cut && names[..cut][i] == a;
    var j :| 0 <= j < |names| - cut && names[cut..][j] == b;
    assert names[i] < names[cut + j];
  }
}
