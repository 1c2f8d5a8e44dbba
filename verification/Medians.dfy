/** The median and the weighted median (src/core/consensus.ts), and what singles them out. */
module Medians {
  import opened Collections
  import opened Sorting

  // ---------- counting on either side of a value ----------

  function AtMost<T>(xs: seq<Keyed<T>>, t: real): nat {
    if xs == [] then 0 else (if xs[0].rank <= t then 1 else 0) + AtMost(xs[1..], t)
  }

  function AtLeast<T>(xs: seq<Keyed<T>>, t: real): nat {
    if xs == [] then 0 else (if xs[0].rank >= t then 1 else 0) + AtLeast(xs[1..], t)
  }

  lemma {:induction false} InsertSides<T>(x: Keyed<T>, xs: seq<Keyed<T>>, t: real)
    ensures AtMost(Insert(x, xs), t) == AtMost(xs, t) + if x.rank <= t then 1 else 0
    ensures AtLeast(Insert(x, xs), t) == AtLeast(xs, t) + if x.rank >= t then 1 else 0
    decreases |xs|
  {
    if xs != [] && x.rank > xs[0].rank {
      InsertSides(x, xs[1..], t);
      assert Insert(x, xs)[1..] == Insert(x, xs[1..]);
    } else {
      assert Insert(x, xs)[1..] == xs;
    }
  }

  lemma {:induction false} SortSides<T>(xs: seq<Keyed<T>>, t: real)
    ensures AtMost(Sort(xs), t) == AtMost(xs, t) && AtLeast(Sort(xs), t) == AtLeast(xs, t)
    decreases |xs|
  {
    if xs != [] {
      SortSides(xs[1..], t);
      InsertSides(xs[0], Sort(xs[1..]), t);
    }
  }

  lemma {:induction false} LowPrefix<T>(xs: seq<Keyed<T>>, k: nat, t: real)
    requires k <= |xs| && forall i :: 0 <= i < k ==> xs[i].rank <= t
    ensures AtMost(xs, t) >= k
    decreases |xs|
  {
    if k > 0 {
      LowPrefix(xs[1..], k - 1, t);
    }
  }

  lemma {:induction false} HighSuffix<T>(xs: seq<Keyed<T>>, k: nat, t: real)
    requires k <= |xs| && forall i :: k <= i < |xs| ==> xs[i].rank >= t
    ensures AtLeast(xs, t) >= |xs| - k
    decreases |xs|
  {
    if xs != [] {
      HighSuffix(xs[1..], if k > 0 then k - 1 else 0, t);
    }
  }

  // ---------- the median ----------

  function Points(xs: seq<real>): (r: seq<Keyed<()>>)
    ensures |r| == |xs| && forall i :: 0 <= i < |xs| ==> r[i] == Keyed(xs[i], ())
  {
    seq(|xs|, i requires 0 <= i < |xs| => Keyed(xs[i], ()))
  }

  function Middle(a: seq<Keyed<()>>): real
    requires a != []
  {
    var m := |a| / 2;
    if |a| % 2 == 1 then a[m].rank else (a[m - 1].rank + a[m].rank) / 2.0
  }

  function Median(xs: seq<real>): Option<real> {
    var a := Sort(Points(xs));
    if a == [] then None else Some(Middle(a))
  }

  lemma OddMiddle(a: seq<Keyed<()>>)
    requires Ascending(a) && |a| % 2 == 1
    ensures 2 * AtMost(a, Middle(a)) >= |a| && 2 * AtLeast(a, Middle(a)) >= |a|
  {
    LowPrefix(a, |a| / 2 + 1, Middle(a));
    HighSuffix(a, |a| / 2, Middle(a));
  }

  lemma EvenMiddle(a: seq<Keyed<()>>)
    requires Ascending(a) && a != [] && |a| % 2 == 0
    ensures 2 * AtMost(a, Middle(a)) >= |a| && 2 * AtLeast(a, Middle(a)) >= |a|
  {
    var m := |a| / 2;
    assert a[m - 1].rank <= Middle(a) <= a[m].rank;
    LowPrefix(a, m, Middle(a));
    HighSuffix(a, m, Middle(a));
  }

  /** At least half of the values lie on either side of the median. */
  lemma MedianIsMiddle(xs: seq<real>)
    requires xs != []
    ensures Median(xs).Some?
    ensures 2 * AtMost(Points(xs), Median(xs).value) >= |xs|
    ensures 2 * AtLeast(Points(xs), Median(xs).value) >= |xs|
  {
    var a := Sort(Points(xs));
    SortFacts(Points(xs));
    SortSides(Points(xs), Middle(a));
    if |a| % 2 == 1 {
      OddMiddle(a);
    } else {
      EvenMiddle(a);
    }
  }

  /** How many values lie between two bounds. */
  function Between(xs: seq<Keyed<()>>, low: real, high: real): nat {
    if xs == [] then 0 else (if low <= xs[0].rank <= high then 1 else 0) + Between(xs[1..], low, high)
  }

  lemma {:induction false} OutsideSides(xs: seq<Keyed<()>>, low: real, high: real, t: real)
    ensures t < low ==> AtMost(xs, t) + Between(xs, low, high) <= |xs|
    ensures t > high ==> AtLeast(xs, t) + Between(xs, low, high) <= |xs|
    decreases |xs|
  {
    if xs != [] {
      OutsideSides(xs[1..], low, high, t);
    }
  }

  /** A minority cannot move the median: it stays where more than half of the values are. */
  lemma MajorityHoldsMedian(xs: seq<real>, low: real, high: real)
    requires 2 * Between(Points(xs), low, high) > |xs|
    ensures Median(xs).Some? && low <= Median(xs).value <= high
  {
    assert xs != [];
    MedianIsMiddle(xs);
    OutsideSides(Points(xs), low, high, Median(xs).value);
  }

  // ---------- the weighted median ----------

  /** Here an item is the weight of its rank. */
  type Weighed = seq<Keyed<real>>

  predicate PositiveWeights(xs: Weighed) {
    forall i :: 0 <= i < |xs| ==> xs[i].item > 0.0
  }

  function Weight(xs: Weighed): real {
    if xs == [] then 0.0 else xs[0].item + Weight(xs[1..])
  }

  function Below(xs: Weighed, t: real): real {
    if xs == [] then 0.0 else (if xs[0].rank < t then xs[0].item else 0.0) + Below(xs[1..], t)
  }

  function Above(xs: Weighed, t: real): real {
    if xs == [] then 0.0 else (if xs[0].rank > t then xs[0].item else 0.0) + Above(xs[1..], t)
  }

  /** The first rank at which the running weight reaches the mark. */
  function Reach(a: Weighed, sum: real, mark: real): Option<real> {
    if a == [] then None
    else if sum + a[0].item >= mark then Some(a[0].rank) else Reach(a[1..], sum + a[0].item, mark)
  }

  function WeightedMedian(xs: Weighed): Option<real> {
    var a := Sort(xs);
    var r := Reach(a, 0.0, Weight(a) / 2.0);
    if r.Some? then r else if a != [] then Some(a[|a| - 1].rank) else None
  }

  lemma {:induction false} InsertWeights(x: Keyed<real>, xs: Weighed, t: real)
    ensures Weight(Insert(x, xs)) == Weight(xs) + x.item
    ensures Below(Insert(x, xs), t) == Below(xs, t) + if x.rank < t then x.item else 0.0
    ensures Above(Insert(x, xs), t) == Above(xs, t) + if x.rank > t then x.item else 0.0
    decreases |xs|
  {
    if xs != [] && x.rank > xs[0].rank {
      InsertWeights(x, xs[1..], t);
      assert Insert(x, xs)[1..] == Insert(x, xs[1..]);
    } else {
      assert Insert(x, xs)[1..] == xs;
    }
  }

  lemma {:induction false} SortWeights(xs: Weighed, t: real)
    ensures Weight(Sort(xs)) == Weight(xs) && Below(Sort(xs), t) == Below(xs, t) && Above(Sort(xs), t) == Above(xs, t)
    decreases |xs|
  {
    if xs != [] {
      SortWeights(xs[1..], t);
      InsertWeights(xs[0], Sort(xs[1..]), t);
    }
  }

  lemma SortPositive(xs: Weighed)
    requires PositiveWeights(xs)
    ensures PositiveWeights(Sort(xs))
  {
    forall i | 0 <= i < |Sort(xs)| ensures Sort(xs)[i].item > 0.0 {
      SortMembers(xs, Sort(xs)[i]);
    }
  }

  lemma {:induction false} WeightPositive(xs: Weighed)
    requires PositiveWeights(xs)
    ensures Weight(xs) >= 0.0 && (xs != [] ==> Weight(xs) > 0.0)
    decreases |xs|
  {
    if xs != [] {
      WeightPositive(xs[1..]);
    }
  }

  lemma {:induction false} NoneBelow(xs: Weighed, t: real)
    requires forall i :: 0 <= i < |xs| ==> xs[i].rank >= t
    ensures Below(xs, t) == 0.0
    decreases |xs|
  {
    if xs != [] {
      NoneBelow(xs[1..], t);
    }
  }

  lemma {:induction false} AboveBounded(xs: Weighed, t: real)
    requires PositiveWeights(xs)
    ensures 0.0 <= Above(xs, t) <= Weight(xs)
    decreases |xs|
  {
    if xs != [] {
      AboveBounded(xs[1..], t);
    }
  }

  /** On an ascending list, the walk stops at a rank with less than the mark below it and no more than
      the rest above it. */
  lemma {:induction false} ReachFacts(a: Weighed, sum: real, mark: real)
    requires Ascending(a) && PositiveWeights(a) && a != [] && sum < mark <= sum + Weight(a)
    ensures var r := Reach(a, sum, mark);
            && r.Some? && (exists i :: 0 <= i < |a| && a[i].rank == r.value)
            && sum + Below(a, r.value) < mark && Above(a, r.value) <= sum + Weight(a) - mark
    decreases |a|
  {
    if sum + a[0].item >= mark {
      NoneBelow(a, a[0].rank);
      AboveBounded(a[1..], a[0].rank);
    } else {
      WeightPositive(a[1..]);
      ReachFacts(a[1..], sum + a[0].item, mark);
      var r := Reach(a, sum, mark).value;
      var i :| 0 <= i < |a[1..]| && a[1..][i].rank == r;
      assert a[i + 1].rank == r;
    }
  }

  /** The value is one of those given, with less than half of the weight below it and at most half
      above. */
  predicate Central(xs: Weighed, v: real) {
    (exists i :: 0 <= i < |xs| && xs[i].rank == v) && Below(xs, v) < Weight(xs) / 2.0
        && Above(xs, v) <= Weight(xs) / 2.0
  }

  lemma {:induction false} ListedSorted(xs: Weighed, v: real)
    requires exists i :: 0 <= i < |Sort(xs)| && Sort(xs)[i].rank == v
    ensures exists i :: 0 <= i < |xs| && xs[i].rank == v
  {
    var a := Sort(xs);
    var i :| 0 <= i < |a| && a[i].rank == v;
    SortMembers(xs, a[i]);
    var j :| 0 <= j < |xs| && xs[j] == a[i];
    assert xs[j].rank == v;
  }

  lemma {:induction false} CentralSorted(xs: Weighed, v: real)
    requires Central(Sort(xs), v)
    ensures Central(xs, v)
  {
    SortWeights(xs, v);
    ListedSorted(xs, v);
  }

  lemma {:induction false} ReachCentral(a: Weighed)
    requires a != [] && Ascending(a) && PositiveWeights(a)
    ensures var r := Reach(a, 0.0, Weight(a) / 2.0); r.Some? && Central(a, r.value)
  {
    WeightPositive(a);
    ReachFacts(a, 0.0, Weight(a) / 2.0);
  }

  lemma {:induction false} SortedReaches(xs: Weighed)
    requires xs != [] && PositiveWeights(xs)
    ensures var a := Sort(xs);
            var r := Reach(a, 0.0, Weight(a) / 2.0);
            r.Some? && Central(a, r.value)
  {
    SortFacts(xs);
    SortPositive(xs);
    ReachCentral(Sort(xs));
  }

  /** The walk always stops, so what follows the loop is never reached. */
  lemma {:induction false} WalkStops(xs: Weighed)
    requires xs != [] && PositiveWeights(xs)
    ensures var a := Sort(xs); Reach(a, 0.0, Weight(a) / 2.0).Some?
    ensures WeightedMedian(xs).Some? && Central(xs, WeightedMedian(xs).value)
  {
    SortedReaches(xs);
    CentralSorted(xs, WeightedMedian(xs).value);
  }

  lemma {:induction false} SidesOverlap(xs: Weighed, low: real, high: real)
    requires PositiveWeights(xs) && low < high
    ensures Below(xs, high) + Above(xs, low) >= Weight(xs)
    decreases |xs|
  {
    if xs != [] {
      SidesOverlap(xs[1..], low, high);
    }
  }

  /** Main result.  The weighted median is the one value with less than half of the weight below it and
      at most half above; so it does not depend on the order of the items. */
  lemma WeightedMedianIff(xs: Weighed, v: real)
    requires xs != [] && PositiveWeights(xs)
    ensures WeightedMedian(xs) == Some(v) <==> Central(xs, v)
  {
    WalkStops(xs);
    var w := WeightedMedian(xs).value;
    if Central(xs, v) && v < w {
      SidesOverlap(xs, v, w);
    }
    if Central(xs, v) && w < v {
      SidesOverlap(xs, w, v);
    }
  }

  lemma {:induction false} ReachNext(a: Weighed, i: nat, sum: real, mark: real)
    requires i < |a|
    ensures Reach(a[i..], sum, mark)
         == if sum + a[i].item >= mark then Some(a[i].rank) else Reach(a[i + 1..], sum + a[i].item, mark)
  {
    assert a[i..][1..] == a[i + 1..];
  }

  method SumWeights(a: Weighed) returns (total: real)
    ensures total == Weight(a)
  {
    total := 0.0;
    for i := 0 to |a|
      invariant total + Weight(a[i..]) == Weight(a)
    {
      assert a[i..][1..] == a[i + 1..];
      total := total + a[i].item;
    }
  }

  /** The walk over the sorted items. */
  method FindWeightedMedian(xs: Weighed) returns (r: Option<real>)
    ensures r == WeightedMedian(xs)
  {
    var a := Sort(xs);
    var total := SumWeights(a);
    var sum := 0.0;
    for i := 0 to |a|
      invariant Reach(a, 0.0, total / 2.0) == Reach(a[i..], sum, total / 2.0)
    {
      ReachNext(a, i, sum, total / 2.0);
      sum := sum + a[i].item;
      if sum >= total / 2.0 {
        return Some(a[i].rank);
      }
    }
    r := if a != [] then Some(a[|a| - 1].rank) else None;
  }
}
