/** The arithmetic of a consensus on a number, said of the raw rows: the median exactly, what each family
    says and with what weight, where the consensus lies among the families, and the exact agreement
    (src/core/consensus.ts, `median`, `weightedMedian` and `robustNumber`). */
module NumberWeights {
  import opened Collections
  import opened Sorting
  import opened Tally
  import opened Families
  import opened Medians
  import opened RobustNumber
  import opened RobustLaws
  import opened ConsensusWeights

  // ---------- the median ----------

  /** In ascending order this value stands at the lower middle, the upper middle when `upper`. */
  predicate MiddleValue(xs: seq<real>, v: real, upper: bool) {
    && v in xs
    && (if upper then 2 * AtMost(Points(xs), v) > |xs| else 2 * AtMost(Points(xs), v) >= |xs|)
    && (if upper then 2 * AtLeast(Points(xs), v) >= |xs| else 2 * AtLeast(Points(xs), v) > |xs|)
  }

  lemma {:induction false} SortedIn(xs: seq<real>, i: nat)
    requires i < |Sort(Points(xs))|
    ensures Sort(Points(xs))[i].rank in xs
  {
    var a := Sort(Points(xs));
    SortMembers(Points(xs), a[i]);
    var j :| 0 <= j < |Points(xs)| && Points(xs)[j] == a[i];
    assert xs[j] == a[i].rank;
  }

  lemma {:induction false} SortedCounts(xs: seq<real>, i: nat)
    requires i < |xs|
    ensures |Sort(Points(xs))| == |xs|
    ensures AtMost(Points(xs), Sort(Points(xs))[i].rank) >= i + 1
    ensures AtLeast(Points(xs), Sort(Points(xs))[i].rank) >= |xs| - i
  {
    var a := Sort(Points(xs));
    SortFacts(Points(xs));
    SortSides(Points(xs), a[i].rank);
    LowPrefix(a, i + 1, a[i].rank);
    HighSuffix(a, i, a[i].rank);
  }

  lemma {:induction false} SortedMiddle(xs: seq<real>, i: nat, upper: bool, n: nat)
    requires n == |xs| && i < n && (if upper then i == n / 2 else i == (n - 1) / 2)
    ensures |Sort(Points(xs))| == n && MiddleValue(xs, Sort(Points(xs))[i].rank, upper)
  {
    SortedCounts(xs, i);
    SortedIn(xs, i);
  }

  /** The median is half way between the two middle values, which are one for an odd number of values. */
  lemma {:induction false} MedianIsExact(xs: seq<real>) returns (low: real, high: real)
    requires xs != []
    ensures MiddleValue(xs, low, false) && MiddleValue(xs, high, true) && (|xs| % 2 == 1 ==> low == high)
    ensures Median(xs) == Some((low + high) / 2.0)
  {
    var lower, upper := (|xs| - 1) / 2, |xs| / 2;
    SortedMiddle(xs, lower, false, |xs|);
    SortedMiddle(xs, upper, true, |xs|);
    var a := Sort(Points(xs));
    low, high := a[lower].rank, a[upper].rank;
  }

  /** Half way between the two middle ones of these numbers. */
  ghost predicate HalfWay(xs: seq<real>, m: real) {
    exists low, high :: MiddleValue(xs, low, false) && MiddleValue(xs, high, true) && m == (low + high) / 2.0
  }

  /** What the filter measures from is the median of the numbers given, and its unit the median of how far
      they lie from that. */
  lemma {:induction false} CentreIsExact(rows: seq<Reading>, given: seq<real>, away: seq<real>)
    requires rows != [] && |given| == |rows| && |away| == |rows|
    requires forall i :: 0 <= i < |rows| ==> given[i] == rows[i].value
    requires forall i :: 0 <= i < |rows| ==> away[i] == Size(rows[i].value - Mid(rows))
    ensures HalfWay(given, Mid(rows)) && HalfWay(away, Mad(rows))
  {
    var m := Mid(rows);
    assert Values(rows) == given;
    var low, high := MedianIsExact(given);
    assert Deviations(rows, m) == away;
    var low', high' := MedianIsExact(away);
  }

  // ---------- what a family says ----------

  /** The weight of the members of a family whose values are less. */
  function BelowSum(rows: seq<Reading>, family: string, v: real): real
    decreases |rows|
  {
    if rows == [] then 0.0 else
    var last := rows[|rows| - 1];
    BelowSum(rows[..|rows| - 1], family, v) + if last.family == family && last.value < v then last.weight else 0.0
  }

  function AboveSum(rows: seq<Reading>, family: string, v: real): real
    decreases |rows|
  {
    if rows == [] then 0.0 else
    var last := rows[|rows| - 1];
    AboveSum(rows[..|rows| - 1], family, v) + if last.family == family && last.value > v then last.weight else 0.0
  }

  lemma {:induction false} WeightsSnoc(xs: Weighed, x: Keyed<real>, v: real)
    ensures Weight(xs + [x]) == Weight(xs) + x.item
    ensures Below(xs + [x], v) == Below(xs, v) + if x.rank < v then x.item else 0.0
    ensures Above(xs + [x], v) == Above(xs, v) + if x.rank > v then x.item else 0.0
    decreases |xs|
  {
    if xs == [] {
      assert xs + [x] == [x];
    } else {
      WeightsSnoc(xs[1..], x, v);
      assert (xs + [x])[1..] == xs[1..] + [x];
    }
  }

  lemma WeighingSnoc(rows: seq<Reading>, r: Reading)
    ensures Weighing(rows + [r]) == Weighing(rows) + [Keyed(r.value, r.weight)]
  {
  }

  lemma {:induction false} WeighingSums(rows: seq<Reading>, family: string, v: real)
    ensures var xs := Weighing(InFamily(rows, family));
            && Weight(xs) == FamilySum(rows, family)
            && Below(xs, v) == BelowSum(rows, family, v) && Above(xs, v) == AboveSum(rows, family, v)
    decreases |rows|
  {
    if rows != [] {
      var init, last := rows[..|rows| - 1], rows[|rows| - 1];
      WeighingSums(init, family, v);
      if last.family == family {
        WeighingSnoc(InFamily(init, family), last);
        WeightsSnoc(Weighing(InFamily(init, family)), Keyed(last.value, last.weight), v);
      } else {
        assert InFamily(rows, family) == InFamily(init, family);
      }
    }
  }

  /** A family says the value of a member with less than half of its weight below and at most half above, and
      speaks with the weight of its heaviest member. */
  ghost predicate SaysOf(rows: seq<Reading>, f: FamilyRow) {
    && (exists r :: r in rows && r.family == f.family && r.value == f.value)
    && 2.0 * BelowSum(rows, f.family, f.value) < FamilySum(rows, f.family)
    && 2.0 * AboveSum(rows, f.family, f.value) <= FamilySum(rows, f.family)
    && HeaviestMember(rows, f.family, f.weight)
  }

  lemma SpeakerSays(rows: seq<Reading>, family: string)
    requires Weighted(rows) && family in FamilyNames(rows)
    ensures SaysOf(rows, SpeakFor(rows, family)) && SpeakFor(rows, family).family == family
  {
    var f, members := SpeakFor(rows, family), InFamily(rows, family);
    var r := SpeakerFacts(rows, family);
    InFamilySome(rows, family);
    InFamilyWeighted(rows, family);
    WalkStops(Weighing(members));
    WeighingSums(rows, family, f.value);
    HeaviestIsMember(rows, family, f.weight);
  }

  /** Every family with a surviving row speaks, once, in the order of the families' first rows. */
  lemma EachFamilySpeaks(rows: seq<Reading>, i: nat)
    requires Weighted(rows) && i < |Speakers(rows)|
    ensures |Speakers(rows)| == |Distinct(FamilyNames(rows))|
    ensures Speakers(rows)[i].family == Distinct(FamilyNames(rows))[i] && SaysOf(rows, Speakers(rows)[i])
  {
    var families := Distinct(FamilyNames(rows));
    DistinctAreNamed(FamilyNames(rows));
    FamilyRowsAt(rows, families, i);
    SpeakerSays(rows, families[i]);
  }

  // ---------- where the consensus lies ----------

  function SpokenSum(fs: seq<FamilyRow>): real {
    if fs == [] then 0.0 else fs[0].weight + SpokenSum(fs[1..])
  }

  function SpokenBelow(fs: seq<FamilyRow>, v: real): real {
    if fs == [] then 0.0 else (if fs[0].value < v then fs[0].weight else 0.0) + SpokenBelow(fs[1..], v)
  }

  function SpokenAbove(fs: seq<FamilyRow>, v: real): real {
    if fs == [] then 0.0 else (if fs[0].value > v then fs[0].weight else 0.0) + SpokenAbove(fs[1..], v)
  }

  lemma {:induction false} SpokenSums(fs: seq<FamilyRow>, v: real)
    ensures var xs := FamilyWeighing(fs);
            Weight(xs) == SpokenSum(fs) && Below(xs, v) == SpokenBelow(fs, v) && Above(xs, v) == SpokenAbove(fs, v)
    decreases |fs|
  {
    if fs != [] {
      SpokenSums(fs[1..], v);
      assert FamilyWeighing(fs)[1..] == FamilyWeighing(fs[1..]);
    }
  }

  /** Main result.  The consensus is the number of a family with less than half of the families' weight below
      it and at most half above. */
  lemma NumberIsExact(rows: seq<Reading>)
    requires rows != [] && Weighted(rows)
    ensures InTheMiddle(Speakers(Survivors(rows)), NumberOf(rows).value)
    ensures NumberOf(rows).families == |Speakers(Survivors(rows))|
  {
    NumberIsCentral(rows);
    CentralIsMiddle(Speakers(Survivors(rows)), NumberOf(rows).value);
  }

  ghost predicate InTheMiddle(fs: seq<FamilyRow>, v: real) {
    && (exists i :: 0 <= i < |fs| && fs[i].value == v)
    && 2.0 * SpokenBelow(fs, v) < SpokenSum(fs) && 2.0 * SpokenAbove(fs, v) <= SpokenSum(fs)
  }

  lemma CentralIsMiddle(fs: seq<FamilyRow>, v: real)
    requires Central(FamilyWeighing(fs), v)
    ensures InTheMiddle(fs, v)
  {
    SpokenSums(fs, v);
    var i :| 0 <= i < |FamilyWeighing(fs)| && FamilyWeighing(fs)[i].rank == v;
    assert fs[i].value == v;
  }

  // ---------- the agreement ----------

  /** Falls evenly from 1 at distance 0 to 0 at the scale, and stays there. */
  function Fade(distance: real, scale: real): real
    requires scale > 0.0
  {
    if distance >= scale then 0.0 else (scale - distance) / scale
  }

  function Size(x: real): real {
    if x >= 0.0 then x else -x
  }

  /** Five, or a fifth of the value if that is more. */
  function DistanceScale(v: real): (s: real)
    ensures s > 0.0
  {
    if Size(v) > 25.0 then Size(v) / 5.0 else 5.0
  }

  /** A quarter, or a quarter of the value if that is more. */
  function SpreadScale(v: real): (s: real)
    ensures s > 0.0
  {
    if Size(v) > 1.0 then Size(v) / 4.0 else 0.25
  }

  lemma Quotient(x: real, part: real, whole: real)
    requires whole > 0.0 && x * whole == part
    ensures part / whole == x
  {
    var y := part / whole;
    assert (y - x) * whole == 0.0;
  }

  lemma ClosenessFades(distance: real, scale: real)
    requires distance >= 0.0 && scale > 0.0
    ensures Closeness(distance, scale) == Fade(distance, scale)
  {
    var d := distance / scale;
    assert d * scale == distance;
    Quotient(1.0 - d, scale - distance, scale);
    if distance >= scale {
      assert (d - 1.0) * scale >= 0.0;
    } else {
      assert (1.0 - d) * scale > 0.0;
    }
  }

  lemma SpreadFades(spread: real, size: real)
    requires spread >= 0.0 && size > 0.0
    ensures Closeness(spread / size, 0.25) == Fade(spread, size / 4.0)
  {
    var d := spread / size;
    assert d * size == spread;
    ClosenessFades(d, 0.25);
    ClosenessFades(spread, size / 4.0);
    SameRatio(spread, size);
  }

  lemma SameRatio(spread: real, size: real)
    requires size > 0.0
    ensures spread / (size / 4.0) == spread / size / 0.25
  {
    var d := spread / size;
    assert d * size == spread;
    Quotient(4.0 * d, spread, size / 4.0);
  }

  /** The weight of the families, each counted as far as its number is close to v. */
  function CloseSum(fs: seq<FamilyRow>, v: real): real
    decreases |fs|
  {
    if fs == [] then 0.0 else
    var last := fs[|fs| - 1];
    CloseSum(fs[..|fs| - 1], v) + Times(last.weight, Fade(Size(last.value - v), DistanceScale(v)))
  }

  lemma {:induction false} CloseSums(fs: seq<FamilyRow>, v: real)
    ensures Total(CloseStakes(fs, v)) == CloseSum(fs, v)
    decreases |fs|
  {
    if fs != [] {
      var init, last := fs[..|fs| - 1], fs[|fs| - 1];
      CloseSums(init, v);
      assert CloseStakes(fs, v)[..|init|] == CloseStakes(init, v);
      ClosenessFades(Size(last.value - v), DistanceScale(v));
    }
  }

  lemma {:induction false} StakeSums(fs: seq<FamilyRow>)
    ensures Total(FamilyStakes(fs)) == SpokenSum(fs)
    decreases |fs|
  {
    if fs != [] {
      var init, last := fs[..|fs| - 1], fs[|fs| - 1];
      StakeSums(init);
      assert FamilyStakes(fs)[..|init|] == FamilyStakes(init);
      assert fs == init + [last];
      SpokenSnoc(init, last);
    }
  }

  lemma {:induction false} SpokenSnoc(fs: seq<FamilyRow>, f: FamilyRow)
    ensures SpokenSum(fs + [f]) == SpokenSum(fs) + f.weight
    decreases |fs|
  {
    if fs == [] {
      assert fs + [f] == [f];
    } else {
      SpokenSnoc(fs[1..], f);
      assert (fs + [f])[1..] == fs[1..] + [f];
    }
  }

  ghost predicate Range(rows: seq<Reading>, low: real, high: real) {
    && (exists r :: r in rows && r.value == low) && (exists r :: r in rows && r.value == high)
    && forall r :: r in rows ==> low <= r.value <= high
  }

  lemma {:induction false} ExtremesRange(rows: seq<Reading>)
    requires rows != []
    ensures Range(rows, Lowest(rows), Highest(rows))
    decreases |rows|
  {
    var init, last := rows[..|rows| - 1], rows[|rows| - 1];
    assert last in rows;
    if init != [] {
      ExtremesRange(init);
      assert forall r :: r in init ==> r in rows;
      assert forall r :: r in rows ==> r in init || r == last;
    }
  }

  /** How far the values agree, by how far they are spread. */
  lemma SpreadIsExact(rows: seq<Reading>, v: real, low: real, high: real)
    requires rows != [] && Range(rows, low, high)
    ensures SpreadAgreement(rows, v) == Fade(high - low, SpreadScale(v))
  {
    ExtremesRange(rows);
    assert low == Lowest(rows) && high == Highest(rows);
    if |rows| == 1 {
      assert rows[0] in rows && low == high;
      ClosenessFades(0.0, 0.25);
    } else {
      SpreadFades(high - low, Max(1.0, Abs(v)));
    }
  }

  /** How far the families agree: the share of their weight, each counted as far as it is close. */
  lemma DistanceIsExact(fs: seq<FamilyRow>, v: real)
    requires fs != [] && Positive(FamilyStakes(fs))
    ensures Times(DistanceAgreement(fs, v), SpokenSum(fs)) == CloseSum(fs, v)
  {
    CloseSums(fs, v);
    StakeSums(fs);
    TotalPositive(FamilyStakes(fs));
    ShareTimes(Total(CloseStakes(fs, v)), Total(FamilyStakes(fs)), DistanceAgreement(fs, v));
  }

  /** Main result.  The agreement is the lesser of two: how narrow the range of the surviving values is, fading
      to 0 at a quarter of the consensus, and the share of the families' weight by how close each family's
      number is, fading to 0 at a fifth of it. */
  lemma NumberAgreementIsExact(rows: seq<Reading>, low: real, high: real) returns (close: real)
    requires rows != [] && Weighted(rows) && Range(Survivors(rows), low, high)
    ensures var n, fs := NumberOf(rows), Speakers(Survivors(rows));
            var narrow := Fade(high - low, SpreadScale(n.value));
            && Times(close, SpokenSum(fs)) == CloseSum(fs, n.value) && SpokenSum(fs) > 0.0
            && n.agreement == if narrow <= close then narrow else close
  {
    var kept, n := Survivors(rows), NumberOf(rows);
    HalfSurvive(rows);
    KeptWeighted(rows, Mid(rows), Tolerance(rows));
    SpeakersWeighted(kept);
    var fs := Speakers(kept);
    SpeakerCount(kept);
    close := DistanceAgreement(fs, n.value);
    SpreadIsExact(kept, n.value, low, high);
    DistanceIsExact(fs, n.value);
    StakeSums(fs);
    TotalPositive(FamilyStakes(fs));
  }

  lemma SpeakerCount(rows: seq<Reading>)
    requires rows != []
    ensures Speakers(rows) != []
  {
    RowFamily(rows, rows[0]);
  }

  // ---------- counts ----------

  lemma {:induction false} SpeakerSources(rows: seq<Reading>, family: string)
    requires family in FamilyNames(rows) && DistinctProviders(rows)
    ensures ListedOnce(SpeakFor(rows, family).sources, rows, [family])
  {
    InFamilySome(rows, family);
    var members := InFamily(rows, family);
    MembersOnce(rows, family);
    forall p | p in SpeakFor(rows, family).sources ensures ComesFrom(rows, p, [family]) {
      var r := ProviderOf(members, p);
      InFamilyMember(rows, family, r);
    }
  }

  lemma {:induction false} SpokenSources(rows: seq<Reading>, families: seq<string>)
    requires AllNamed(families, FamilyNames(rows)) && NoDuplicates(families) && DistinctProviders(rows)
    ensures ListedOnce(FamilySources(FamilyRows(rows, families)), rows, families)
    decreases |families|
  {
    if families != [] {
      var init, last := families[..|families| - 1], families[|families| - 1];
      SpokenSources(rows, init);
      assert families == init + [last] && last !in init;
      SpeakerSources(rows, last);
      SourcesSnoc(rows, families);
      ListMore(rows, init, last, FamilySources(FamilyRows(rows, init)), SpeakFor(rows, last).sources);
    }
  }

  lemma {:induction false} KeptOnce(rows: seq<Reading>, m: real, tolerance: Option<real>)
    requires DistinctProviders(rows)
    ensures DistinctProviders(Kept(rows, m, tolerance)) && NoDuplicates(Outliers(rows, m, tolerance))
    decreases |rows|
  {
    if rows != [] {
      var first, rest := rows[0], rows[1..];
      OnceRest(rows, first, rest);
      KeptOnce(rest, m, tolerance);
      KeptOrOutlier(rest, m, tolerance, first.provider);
      if Near(first.value, m, tolerance) {
        OnceMore(first, Kept(rest, m, tolerance));
        assert Kept(rows, m, tolerance) == [first] + Kept(rest, m, tolerance);
        assert Outliers(rows, m, tolerance) == Outliers(rest, m, tolerance);
      } else {
        JoinOnce([first.provider], Outliers(rest, m, tolerance));
        assert Kept(rows, m, tolerance) == Kept(rest, m, tolerance);
        assert Outliers(rows, m, tolerance) == [first.provider] + Outliers(rest, m, tolerance);
      }
    }
  }

  lemma {:induction false} OnceRest(rows: seq<Reading>, first: Reading, rest: seq<Reading>)
    requires DistinctProviders(rows) && rows != [] && first == rows[0] && rest == rows[1..]
    ensures DistinctProviders(rest) && first.provider !in Providers(rest)
  {
    assert Providers(rows) == [first.provider] + Providers(rest);
  }

  lemma {:induction false} OnceMore(first: Reading, rest: seq<Reading>)
    requires DistinctProviders(rest)
    ensures first.provider !in Providers(rest) ==> DistinctProviders([first] + rest)
  {
    assert Providers([first] + rest) == [first.provider] + Providers(rest);
    if first.provider !in Providers(rest) {
      JoinOnce([first.provider], Providers(rest));
    }
  }

  /** The families and the sources are counted right: each family with a surviving number once, and no source
      and no outlier twice. */
  lemma NumberCountsAreExact(rows: seq<Reading>)
    requires DistinctProviders(rows)
    ensures var n := NumberOf(rows);
            n.families == FamilyCount(Survivors(rows)) && NoDuplicates(n.sources) && NoDuplicates(n.outliers)
  {
    var kept := Survivors(rows);
    KeptOnce(rows, Mid(rows), Tolerance(rows));
    FamiliesCounted(kept);
    DistinctOnce(FamilyNames(kept));
    DistinctAreNamed(FamilyNames(kept));
    SpokenSources(kept, Distinct(FamilyNames(kept)));
  }
}
