/** The stable ascending sort that the repository gets from JavaScript's `Array.prototype.sort`. */
module Sorting {

  /** An item with the rank it is sorted by. */
  datatype Keyed<T> = Keyed(rank: real, item: T)

  function Insert<T>(x: Keyed<T>, xs: seq<Keyed<T>>): seq<Keyed<T>> {
    if xs == [] || x.rank <= xs[0].rank then [x] + xs else [xs[0]] + Insert(x, xs[1..])
  }

  /** Items of equal rank keep their order. */
  function Sort<T>(xs: seq<Keyed<T>>): seq<Keyed<T>> {
    if xs == [] then [] else Insert(xs[0], Sort(xs[1..]))
  }

  predicate Ascending<T>(xs: seq<Keyed<T>>) {
    forall i, j :: 0 <= i < j < |xs| ==> xs[i].rank <= xs[j].rank
  }

  lemma {:induction false} InsertCounts<T>(x: Keyed<T>, xs: seq<Keyed<T>>)
    ensures |Insert(x, xs)| == |xs| + 1
    ensures multiset(Insert(x, xs)) == multiset(xs) + multiset{x}
    decreases |xs|
  {
    if xs != [] && x.rank > xs[0].rank {
      InsertCounts(x, xs[1..]);
      assert xs == [xs[0]] + xs[1..];
    }
  }

  lemma {:induction false} InsertAtLeast<T>(x: Keyed<T>, xs: seq<Keyed<T>>, low: real)
    requires low <= x.rank && forall i :: 0 <= i < |xs| ==> low <= xs[i].rank
    ensures forall i :: 0 <= i < |Insert(x, xs)| ==> low <= Insert(x, xs)[i].rank
    decreases |xs|
  {
    if xs != [] && x.rank > xs[0].rank {
      InsertAtLeast(x, xs[1..], low);
    }
  }

  lemma {:induction false} InsertAscends<T>(x: Keyed<T>, xs: seq<Keyed<T>>)
    requires Ascending(xs)
    ensures Ascending(Insert(x, xs))
    decreases |xs|
  {
    if xs != [] && x.rank > xs[0].rank {
      InsertAscends(x, xs[1..]);
      InsertAtLeast(x, xs[1..], xs[0].rank);
    }
  }

  /** Sorting orders the items and loses, adds and repeats none. */
  lemma {:induction false} SortFacts<T>(xs: seq<Keyed<T>>)
    ensures Ascending(Sort(xs)) && |Sort(xs)| == |xs| && multiset(Sort(xs)) == multiset(xs)
    decreases |xs|
  {
    if xs != [] {
      SortFacts(xs[1..]);
      InsertCounts(xs[0], Sort(xs[1..]));
      InsertAscends(xs[0], Sort(xs[1..]));
      assert xs == [xs[0]] + xs[1..];
    }
  }

  lemma SortMembers<T>(xs: seq<Keyed<T>>, x: Keyed<T>)
    ensures x in Sort(xs) <==> x in xs
  {
    SortFacts(xs);
    assert x in multiset(Sort(xs)) <==> x in multiset(xs);
  }

  /** What is in order stays as it is. */
  lemma {:induction false} SortSorted<T>(xs: seq<Keyed<T>>)
    requires Ascending(xs)
    ensures Sort(xs) == xs
    decreases |xs|
  {
    if xs != [] {
      SortSorted(xs[1..]);
      assert xs == [xs[0]] + xs[1..];
    }
  }

  /** The items of one rank, in order. */
  function OfRank<T>(xs: seq<Keyed<T>>, rank: real): seq<Keyed<T>> {
    if xs == [] then [] else (if xs[0].rank == rank then [xs[0]] else []) + OfRank(xs[1..], rank)
  }

  lemma {:induction false} InsertStable<T>(x: Keyed<T>, xs: seq<Keyed<T>>, rank: real)
    requires Ascending(xs)
    ensures OfRank(Insert(x, xs), rank) == (if x.rank == rank then [x] else []) + OfRank(xs, rank)
    decreases |xs|
  {
    if xs != [] && x.rank > xs[0].rank {
      InsertStable(x, xs[1..], rank);
      assert Insert(x, xs)[1..] == Insert(x, xs[1..]);
      if x.rank == rank {
        assert OfRank(xs, rank) == OfRank(xs[1..], rank);
      }
    } else {
      assert Insert(x, xs)[1..] == xs;
    }
  }

  /** The sort is stable: among equal ranks the original order survives. */
  lemma {:induction false} SortStable<T>(xs: seq<Keyed<T>>, rank: real)
    ensures OfRank(Sort(xs), rank) == OfRank(xs, rank)
    decreases |xs|
  {
    if xs != [] {
      SortStable(xs[1..], rank);
      SortFacts(xs[1..]);
      InsertStable(xs[0], Sort(xs[1..]), rank);
    }
  }

  /** The first item of least rank comes first. */
  lemma {:induction false} SortHead<T>(xs: seq<Keyed<T>>, j: nat)
    requires j < |xs|
    requires forall i :: 0 <= i < |xs| ==> xs[j].rank <= xs[i].rank
    requires forall i :: 0 <= i < j ==> xs[j].rank < xs[i].rank
    ensures Sort(xs) != [] && Sort(xs)[0] == xs[j]
    decreases |xs|
  {
    if j > 0 {
      SortHead(xs[1..], j - 1);
    } else if |xs| > 1 {
      SortFacts(xs[1..]);
      SortMembers(xs[1..], Sort(xs[1..])[0]);
    }
  }

  // ---------- distinct items ----------

  predicate DistinctItems<T(==)>(xs: seq<Keyed<T>>) {
    forall i, j :: 0 <= i < j < |xs| ==> xs[i].item != xs[j].item
  }

  lemma TwiceIn<T>(s: seq<T>, i: nat, j: nat)
    requires i < j < |s| && s[i] == s[j]
    ensures multiset(s)[s[i]] >= 2
  {
    assert s == s[..j] + [s[j]] + s[j + 1..];
    assert s[i] in s[..j];
    assert multiset(s) == multiset(s[..j]) + multiset{s[j]} + multiset(s[j + 1..]);
  }

  lemma OnceIn<T>(xs: seq<Keyed<T>>, a: nat)
    requires a < |xs| && DistinctItems(xs)
    ensures multiset(xs)[xs[a]] == 1
  {
    assert xs == xs[..a] + [xs[a]] + xs[a + 1..];
    assert xs[a] !in xs[..a] && xs[a] !in xs[a + 1..];
    assert multiset(xs) == multiset(xs[..a]) + multiset{xs[a]} + multiset(xs[a + 1..]);
  }

  lemma SortKeepsApart<T>(xs: seq<Keyed<T>>, i: nat, j: nat)
    requires DistinctItems(xs) && i < j < |Sort(xs)|
    ensures Sort(xs)[i].item != Sort(xs)[j].item
  {
    var s := Sort(xs);
    SortFacts(xs);
    SortMembers(xs, s[i]);
    SortMembers(xs, s[j]);
    var a :| 0 <= a < |xs| && xs[a] == s[i];
    if s[i].item == s[j].item {
      var b :| 0 <= b < |xs| && xs[b] == s[j];
      assert a == b;
      TwiceIn(s, i, j);
      OnceIn(xs, a);
    }
  }

  /** Sorting items that are all different leaves them all different. */
  lemma SortDistinct<T>(xs: seq<Keyed<T>>)
    requires DistinctItems(xs)
    ensures DistinctItems(Sort(xs))
  {
    forall i, j | 0 <= i < j < |Sort(xs)| ensures Sort(xs)[i].item != Sort(xs)[j].item {
      SortKeepsApart(xs, i, j);
    }
  }
}
