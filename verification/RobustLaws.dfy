/** What the consensus on a number guarantees: it is a value some unrejected provider gave, agreement is
    full exactly when all of those are the same, and every provider is a source or an outlier. */
module RobustLaws {
  import opened Collections
  import opened Sorting
  import opened Tally
  import opened Families
  import opened Medians
  import opened RobustNumber

  lemma {:induction false} FamilyRowsAt(rows: seq<Reading>, families: seq<string>, i: nat)
    requires AllNamed(families, FamilyNames(rows)) && i < |families|
    ensures FamilyRows(rows, families)[i] == SpeakFor(rows, families[i])
    decreases |families|
  {
    if i < |families| - 1 {
      FamilyRowsAt(rows, families[..|families| - 1], i);
    }
  }

  lemma SpeakerOrigin(rows: seq<Reading>, i: nat) returns (family: string)
    requires i < |Speakers(rows)|
    ensures family in FamilyNames(rows) && Speakers(rows)[i] == SpeakFor(rows, family)
  {
    DistinctAreNamed(FamilyNames(rows));
    family := Distinct(FamilyNames(rows))[i];
    FamilyRowsAt(rows, Distinct(FamilyNames(rows)), i);
  }

  // ---------- the value ----------

  /** A weighted median is one of the values it is taken of. */
  lemma MedianListed(xs: Weighed) returns (i: nat)
    requires xs != [] && PositiveWeights(xs)
    ensures i < |xs| && xs[i].rank == Or(WeightedMedian(xs))
  {
    WalkStops(xs);
    i :| 0 <= i < |xs| && xs[i].rank == WeightedMedian(xs).value;
  }

  /** A family says what one of its members says, with positive weight. */
  lemma SpeakerFacts(rows: seq<Reading>, family: string) returns (r: Reading)
    requires Weighted(rows) && family in FamilyNames(rows)
    ensures r in rows && r.family == family && SpeakFor(rows, family).value == r.value
    ensures SpeakFor(rows, family).weight > 0.0
  {
    var members := InFamily(rows, family);
    InFamilySome(rows, family);
    InFamilyWeighted(rows, family);
    var i := MedianListed(Weighing(members));
    r := members[i];
    InFamilyMember(rows, family, r);
  }

  lemma SpeakersWeighted(rows: seq<Reading>)
    requires Weighted(rows)
    ensures PositiveWeights(FamilyWeighing(Speakers(rows))) && Positive(FamilyStakes(Speakers(rows)))
  {
    forall i | 0 <= i < |Speakers(rows)| ensures Speakers(rows)[i].weight > 0.0 {
      var family := SpeakerOrigin(rows, i);
      var r := SpeakerFacts(rows, family);
    }
  }

  /** The weighted median of the families' weighted medians is some member's value. */
  lemma NestedMedian(rows: seq<Reading>) returns (r: Reading)
    requires rows != [] && Weighted(rows)
    ensures r in rows && r.value == Or(WeightedMedian(FamilyWeighing(Speakers(rows))))
  {
    var fs := Speakers(rows);
    SpeakersWeighted(rows);
    var i := MedianListed(FamilyWeighing(fs));
    var family := SpeakerOrigin(rows, i);
    r := SpeakerFacts(rows, family);
  }

  /** Main result.  The consensus number was given by some provider, and lies within the tolerance of
      the median of all values. */
  lemma NumberWasGiven(rows: seq<Reading>) returns (r: Reading)
    requires rows != [] && Weighted(rows)
    ensures r in rows && r.value == NumberOf(rows).value
    ensures r in Survivors(rows) && Near(NumberOf(rows).value, Mid(rows), Tolerance(rows))
  {
    HalfSurvive(rows);
    KeptWeighted(rows, Mid(rows), Tolerance(rows));
    r := NestedMedian(Survivors(rows));
    KeptMember(rows, Mid(rows), Tolerance(rows), r);
  }

  /** Less than half of the families' weight lies below the consensus number, and at most half above. */
  lemma NumberIsCentral(rows: seq<Reading>)
    requires rows != [] && Weighted(rows)
    ensures Central(FamilyWeighing(Speakers(Survivors(rows))), NumberOf(rows).value)
  {
    HalfSurvive(rows);
    KeptWeighted(rows, Mid(rows), Tolerance(rows));
    SpeakersWeighted(Survivors(rows));
    WalkStops(FamilyWeighing(Speakers(Survivors(rows))));
  }

  // ---------- a minority ----------

  lemma {:induction false} DeviationsBetween(rows: seq<Reading>, m: real, low: real, high: real)
    requires low <= m <= high
    ensures Between(Points(Deviations(rows, m)), 0.0, high - low) >= Between(Points(Values(rows)), low, high)
    decreases |rows|
  {
    if rows != [] {
      DeviationsBetween(rows[1..], m, low, high);
      assert Points(Deviations(rows, m))[1..] == Points(Deviations(rows[1..], m));
      assert Points(Values(rows))[1..] == Points(Values(rows[1..]));
    }
  }

  /** How far from a majority within low..high, with its median at m, a consensus can lie. */
  function Leeway(m: real, low: real, high: real): real {
    Max(Max(20.0, Abs(m) * 0.2), 4.0 * (high - low))
  }

  /** Main result.  When more than half of three or more values lie between two bounds, the other
      providers, whatever they say and however much they weigh, cannot drag the consensus further
      from those bounds than the tolerance that the majority itself sets. */
  lemma {:induction false} MinorityCannotDrag(rows: seq<Reading>, low: real, high: real)
    requires |rows| >= 3 && Weighted(rows) && 2 * Between(Points(Values(rows)), low, high) > |rows|
    ensures low <= Mid(rows) <= high && Mad(rows) <= high - low
    ensures var leeway := Leeway(Mid(rows), low, high);
            low - leeway <= NumberOf(rows).value <= high + leeway
  {
    var m := Mid(rows);
    MajorityHoldsMedian(Values(rows), low, high);
    DeviationsBetween(rows, m, low, high);
    MajorityHoldsMedian(Deviations(rows, m), 0.0, high - low);
    var r := NumberWasGiven(rows);
    assert Tolerance(rows).value <= Leeway(m, low, high);
  }

  // ---------- agreement ----------

  lemma ClosenessBounds(distance: real, scale: real)
    requires distance >= 0.0 && scale > 0.0
    ensures 0.0 <= Closeness(distance, scale) <= 1.0
    ensures Closeness(distance, scale) == 1.0 <==> distance == 0.0
  {
    assert distance / scale * scale == distance;
    assert distance > 0.0 ==> distance / scale > 0.0;
  }

  predicate AllEqual(rows: seq<Reading>, x: real) {
    forall i :: 0 <= i < |rows| ==> rows[i].value == x
  }

  lemma {:induction false} Extremes(rows: seq<Reading>)
    requires rows != []
    ensures forall i :: 0 <= i < |rows| ==> Lowest(rows) <= rows[i].value <= Highest(rows)
    ensures Lowest(rows) == Highest(rows) <==> AllEqual(rows, rows[0].value)
    decreases |rows|
  {
    if |rows| > 1 {
      var init := rows[..|rows| - 1];
      Extremes(init);
      assert AllEqual(rows, rows[0].value) <==> AllEqual(init, init[0].value) && rows[|init|].value == init[0].value;
    }
  }

  lemma SpreadBounds(rows: seq<Reading>, value: real)
    requires rows != []
    ensures 0.0 <= SpreadAgreement(rows, value) <= 1.0
    ensures SpreadAgreement(rows, value) == 1.0 <==> AllEqual(rows, rows[0].value)
  {
    Extremes(rows);
    var scale, spread := Max(1.0, Abs(value)), Highest(rows) - Lowest(rows);
    assert spread / scale * scale == spread;
    assert spread >= 0.0 && (spread > 0.0 ==> spread / scale > 0.0);
    ClosenessBounds(RelativeSpread(rows, value), 0.25);
  }

  lemma CloseShare(f: FamilyRow, value: real)
    requires f.weight > 0.0
    ensures 0.0 <= Times(f.weight, FamilyCloseness(f, value)) <= f.weight
    ensures Times(f.weight, FamilyCloseness(f, value)) == f.weight <==> f.value == value
  {
    ClosenessBounds(Abs(f.value - value), Max(5.0, Abs(value) * 0.2));
    if FamilyCloseness(f, value) > 0.0 {
      TimesShare(f.weight, FamilyCloseness(f, value));
    } else {
      assert Times(f.weight, 0.0) == 0.0;
    }
  }

  lemma ShareOf(part: real, whole: real)
    requires 0.0 <= part <= whole && whole > 0.0
    ensures 0.0 <= part / whole <= 1.0 && (part / whole == 1.0 <==> part == whole)
  {
    if part > 0.0 {
      Ratio(part, whole);
    }
  }

  lemma DistanceBounds(fs: seq<FamilyRow>, value: real)
    requires fs != [] && Positive(FamilyStakes(fs))
    ensures 0.0 <= DistanceAgreement(fs, value) <= 1.0
    ensures DistanceAgreement(fs, value) == 1.0 <==> forall i :: 0 <= i < |fs| ==> fs[i].value == value
  {
    var s, t := CloseStakes(fs, value), FamilyStakes(fs);
    forall i | 0 <= i < |fs|
      ensures 0.0 <= s[i].weight <= t[i].weight && (s[i].weight == t[i].weight <==> fs[i].value == value)
    {
      assert t[i].weight == fs[i].weight;
      CloseShare(fs[i], value);
    }
    TotalCompare(s, t);
    TotalPositive(t);
    ShareOf(Total(s), Total(t));
  }

  lemma FamiliesEqual(rows: seq<Reading>, x: real)
    requires Weighted(rows) && AllEqual(rows, x)
    ensures forall i :: 0 <= i < |Speakers(rows)| ==> Speakers(rows)[i].value == x
  {
    forall i | 0 <= i < |Speakers(rows)| ensures Speakers(rows)[i].value == x {
      var family := SpeakerOrigin(rows, i);
      var r := SpeakerFacts(rows, family);
    }
  }

  /** Main result.  The agreement lies in [0, 1], and is 1 exactly when all surviving values are the
      consensus number. */
  lemma NumberAgreement(rows: seq<Reading>)
    requires rows != [] && Weighted(rows)
    ensures var n := NumberOf(rows);
            0.0 <= n.agreement <= 1.0 && (n.agreement == 1.0 <==> AllEqual(Survivors(rows), n.value))
  {
    var kept, value := Survivors(rows), NumberOf(rows).value;
    HalfSurvive(rows);
    KeptWeighted(rows, Mid(rows), Tolerance(rows));
    SpeakersWeighted(kept);
    SpreadBounds(kept, value);
    DistanceBounds(Speakers(kept), value);
    var r := NumberWasGiven(rows);
    if AllEqual(kept, kept[0].value) {
      FamiliesEqual(kept, kept[0].value);
    }
  }

  // ---------- sources and outliers ----------

  lemma SourcesSnoc(rows: seq<Reading>, families: seq<string>)
    requires AllNamed(families, FamilyNames(rows)) && families != []
    ensures var init, last := families[..|families| - 1], families[|families| - 1];
            FamilySources(FamilyRows(rows, families))
                == FamilySources(FamilyRows(rows, init)) + SpeakFor(rows, last).sources
  {
  }

  lemma {:induction false} SpokenFor(rows: seq<Reading>, r: Reading)
    requires r in rows && r.family in FamilyNames(rows)
    ensures r.provider in SpeakFor(rows, r.family).sources
  {
    InFamilyMember(rows, r.family, r);
    var members := InFamily(rows, r.family);
    var i :| 0 <= i < |members| && members[i] == r;
    assert Providers(members)[i] == r.provider;
  }

  lemma {:induction false} ListedBefore(rows: seq<Reading>, families: seq<string>, p: string)
    requires AllNamed(families, FamilyNames(rows)) && families != []
    requires var init, last := families[..|families| - 1], families[|families| - 1];
             p in FamilySources(FamilyRows(rows, init)) || p in SpeakFor(rows, last).sources
    ensures p in FamilySources(FamilyRows(rows, families))
  {
    SourcesSnoc(rows, families);
  }

  lemma {:induction false} SourceListed(rows: seq<Reading>, families: seq<string>, r: Reading)
    requires AllNamed(families, FamilyNames(rows)) && r in rows && r.family in families
    ensures r.provider in FamilySources(FamilyRows(rows, families))
    decreases |families|
  {
    var init, last := families[..|families| - 1], families[|families| - 1];
    if r.family == last {
      SpokenFor(rows, r);
    } else {
      InSnoc(families, r.family);
      SourceListed(rows, init, r);
    }
    ListedBefore(rows, families, r.provider);
  }

  lemma {:induction false} SourceOrigin(rows: seq<Reading>, families: seq<string>, p: string)
    requires AllNamed(families, FamilyNames(rows)) && p in FamilySources(FamilyRows(rows, families))
    ensures p in Providers(rows)
    decreases |families|
  {
    SourcesSnoc(rows, families);
    var last := families[|families| - 1];
    if p in SpeakFor(rows, last).sources {
      var r := ProviderOf(InFamily(rows, last), p);
      InFamilyMember(rows, last, r);
    } else {
      SourceOrigin(rows, families[..|families| - 1], p);
    }
  }

  lemma SourcesAreSurvivors(rows: seq<Reading>, p: string)
    ensures p in NumberOf(rows).sources <==> p in Providers(Survivors(rows))
  {
    var kept := Survivors(rows);
    var families := Distinct(FamilyNames(kept));
    DistinctAreNamed(FamilyNames(kept));
    if p in Providers(kept) {
      var r := ProviderOf(kept, p);
      RowFamily(kept, r);
      SourceListed(kept, families, r);
    }
    if p in FamilySources(FamilyRows(kept, families)) {
      SourceOrigin(kept, families, p);
    }
  }

  lemma {:induction false} OutlierRow(rows: seq<Reading>, m: real, tolerance: Option<real>, p: string)
    returns (r: Reading)
    requires p in Outliers(rows, m, tolerance)
    ensures r in rows && r.provider == p && !Near(r.value, m, tolerance)
    decreases |rows|
  {
    if !Near(rows[0].value, m, tolerance) && rows[0].provider == p {
      r := rows[0];
    } else {
      r := OutlierRow(rows[1..], m, tolerance, p);
    }
  }

  /** Main result.  Sources and outliers are disjoint, and together are exactly the providers with a
      number. */
  lemma SourcesAndOutliers(rows: seq<Reading>, p: string)
    requires DistinctProviders(rows)
    ensures var n := NumberOf(rows);
            (p in Providers(rows) <==> p in n.sources || p in n.outliers) && !(p in n.sources && p in n.outliers)
  {
    var m, tolerance := Mid(rows), Tolerance(rows);
    SourcesAreSurvivors(rows, p);
    KeptOrOutlier(rows, m, tolerance, p);
    if p in Providers(Survivors(rows)) && p in Outliers(rows, m, tolerance) {
      var r := ProviderOf(Survivors(rows), p);
      KeptMember(rows, m, tolerance, r);
      var r' := OutlierRow(rows, m, tolerance, p);
      OneRow(rows, r, r');
      assert false;
    }
  }

  /** Further from the median than both bounds allow: 5 and four times the median deviation, or, when more than
      half of the values coincide and that deviation is 0, 20 and a fifth of the median. */
  predicate FarOut(distance: real, m: real, mad: real) {
    if mad > 0.0 then distance > 5.0 && distance > 4.0 * mad
    else distance > 20.0 && 5.0 * distance > m && 5.0 * distance > -m
  }

  lemma FarOutIff(rows: seq<Reading>, x: real)
    ensures !Near(x, Mid(rows), Tolerance(rows)) <==>
            |rows| >= 3 && FarOut(if x >= Mid(rows) then x - Mid(rows) else Mid(rows) - x, Mid(rows), Mad(rows))
  {
  }

  lemma {:induction false} OutlierListed(rows: seq<Reading>, m: real, tolerance: Option<real>, r: Reading)
    requires r in rows && !Near(r.value, m, tolerance)
    ensures r.provider in Outliers(rows, m, tolerance)
    decreases |rows|
  {
    if rows[0] != r {
      OutlierListed(rows[1..], m, tolerance, r);
    }
  }

  /** Main result.  A provider is set aside exactly when at least three gave a number and its own lies further
      from their median than the two bounds allow. */
  lemma OutlierIff(rows: seq<Reading>, r: Reading)
    requires DistinctProviders(rows) && r in rows
    ensures r.provider in NumberOf(rows).outliers <==>
            |rows| >= 3
            && FarOut(if r.value >= Mid(rows) then r.value - Mid(rows) else Mid(rows) - r.value, Mid(rows), Mad(rows))
  {
    var m, tolerance := Mid(rows), Tolerance(rows);
    FarOutIff(rows, r.value);
    if r.provider in Outliers(rows, m, tolerance) {
      var r' := OutlierRow(rows, m, tolerance, r.provider);
      OneRow(rows, r, r');
    } else if !Near(r.value, m, tolerance) {
      OutlierListed(rows, m, tolerance, r);
    }
  }

  lemma {:induction false} AllBetween(xs: seq<real>, low: real, high: real)
    requires forall i :: 0 <= i < |xs| ==> low <= xs[i] <= high
    ensures Between(Points(xs), low, high) == |xs|
    decreases |xs|
  {
    if xs != [] {
      AllBetween(xs[1..], low, high);
      assert Points(xs)[1..] == Points(xs[1..]);
    }
  }

  /** Values within 5 of one another are all kept. */
  lemma {:induction false} CloseValuesStay(rows: seq<Reading>, low: real)
    requires forall i :: 0 <= i < |rows| ==> low <= rows[i].value <= low + 5.0
    ensures NumberOf(rows).outliers == []
  {
    if rows != [] {
      AllBetween(Values(rows), low, low + 5.0);
      MajorityHoldsMedian(Values(rows), low, low + 5.0);
      forall i | 0 <= i < |rows| ensures Near(rows[i].value, Mid(rows), Tolerance(rows)) {
        FarOutIff(rows, rows[i].value);
      }
    }
    NoOutliers(rows, Mid(rows), Tolerance(rows));
  }

  lemma {:induction false} NoOutliers(rows: seq<Reading>, m: real, tolerance: Option<real>)
    requires forall i :: 0 <= i < |rows| ==> Near(rows[i].value, m, tolerance)
    ensures Outliers(rows, m, tolerance) == []
    decreases |rows|
  {
    if rows != [] {
      NoOutliers(rows[1..], m, tolerance);
    }
  }

  /** The same for what the providers were observed to say. */
  lemma {:induction false} RobustObserved(obs: seq<Observation<real>>, p: string)
    requires DistinctObservers(obs) && (forall i :: 0 <= i < |obs| ==> obs[i].weight > 0.0) && Rows(obs) != []
    ensures Robust(obs).Some?
    ensures var n, rows := Robust(obs).value, Rows(obs);
            && Near(n.value, Mid(rows), Tolerance(rows)) && n.value in Values(rows)
            && 0.0 <= n.agreement <= 1.0 && (n.agreement == 1.0 <==> AllEqual(Survivors(rows), n.value))
            && (p in Providers(rows) <==> p in n.sources || p in n.outliers) && !(p in n.sources && p in n.outliers)
  {
    var rows := Rows(obs);
    RowsProper(obs);
    RobustIff(obs);
    var r := NumberWasGiven(rows);
    var i :| 0 <= i < |rows| && rows[i] == r;
    assert Values(rows)[i] == NumberOf(rows).value;
    NumberAgreement(rows);
    SourcesAndOutliers(rows, p);
  }
}
