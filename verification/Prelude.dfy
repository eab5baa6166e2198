/**
 Small definitions that every component shares: optional values and sorted directory listings.
 */
module Prelude {

  datatype Option<+T> = None | Some(value: T)

  ghost predicate Ascending(xs: seq<nat>) {
    forall i, j :: 0 <= i < j < |xs| ==> xs[i] < xs[j]
  }

  /** `xs` is the sorted listing of the names in `names`. */
  ghost predicate Lists(xs: seq<nat>, names: set<nat>) {
    && Ascending(xs)
    && (forall x :: x in xs <==> x in names)
  }

  method Smallest(names: set<nat>) returns (least: nat)
    requires names != {}
    ensures least in names
    ensures forall x :: x in names ==> least <= x
  {
    var first :| first in names;
    least := first;
    var rest := names - {first};
    while rest != {}
      invariant least in names && rest <= names
      invariant forall x :: x in names ==> x in rest || least <= x
      decreases rest
    {
      var x :| x in rest;
      rest := rest - {x};
      if x < least {
        least := x;
      }
    }
  }

  /** Reads a directory the way every store does: matching names, in ascending order. */
  method ReadSorted(names: set<nat>) returns (xs: seq<nat>)
    ensures Lists(xs, names)
  {
    xs := [];
    var rest := names;
    while rest != {}
      invariant rest <= names
      invariant Ascending(xs)
      invariant forall x :: x in xs <==> x in names && x !in rest
      invariant forall x, y :: x in xs && y in rest ==> x < y
      decreases rest
    {
      var least := Smallest(rest);
      assert forall i :: 0 <= i < |xs| ==> xs[i] in xs;
      xs := xs + [least];
      rest := rest - {least};
    }
  }

  lemma EmptyListing(xs: seq<nat>, names: set<nat>)
    requires Lists(xs, names)
    ensures xs == [] <==> names == {}
  {
    if xs != [] {
      assert xs[0] in xs;
    }
  }

  /** A directory has exactly one sorted listing. */
  lemma {:induction false} ListingUnique(xs: seq<nat>, ys: seq<nat>, names: set<nat>)
    requires Lists(xs, names) && Lists(ys, names)
    ensures xs == ys
    decreases |xs|
  {
    EmptyListing(xs, names);
    EmptyListing(ys, names);
    if xs != [] {
      assert xs[0] in xs && ys[0] in ys;
      assert xs[0] == ys[0];
      var rest := names - {xs[0]};
      forall x ensures x in xs[1..] <==> x in rest {
        assert x in xs <==> x == xs[0] || x in xs[1..];
      }
      forall y ensures y in ys[1..] <==> y in rest {
        assert y in ys <==> y == ys[0] || y in ys[1..];
      }
      ListingUnique(xs[1..], ys[1..], rest);
      assert xs == [xs[0]] + xs[1..] && ys == [ys[0]] + ys[1..];
    }
  }

  lemma {:induction false} SubsetSize<T>(small: set<T>, large: set<T>)
    requires small <= large
    ensures |small| <= |large|
    decreases small
  {
    if small != {} {
      var x :| x in small;
      SubsetSize(small - {x}, large - {x});
    }
  }

  function Items(xs: seq<nat>): set<nat> {
    set x | x in xs
  }

  lemma WithoutNext<V>(m: map<nat, V>, xs: seq<nat>, i: nat)
    requires i < |xs|
    ensures m - Items(xs[..i]) - {xs[i]} == m - Items(xs[..i + 1])
  {
    assert xs[..i + 1] == xs[..i] + [xs[i]];
    assert Items(xs[..i + 1]) == Items(xs[..i]) + {xs[i]};
  }
}
