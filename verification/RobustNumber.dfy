/** Evidence consensus on one number (src/core/consensus.ts, `robustNumber`): values far from the median
    are set aside, each family speaks through its weighted median, and so do the families together. */
module RobustNumber {
  import opened Collections
  import opened Sorting
  import opened Tally
  import opened Families
  import opened Medians

  type Reading = Row<real>

  function Abs(x: real): real {
    if x < 0.0 then -x else x
  }

  function Values(rows: seq<Reading>): (r: seq<real>)
    ensures |r| == |rows| && forall i :: 0 <= i < |rows| ==> r[i] == rows[i].value
  {
    seq(|rows|, i requires 0 <= i < |rows| => rows[i].value)
  }

  function Deviations(rows: seq<Reading>, m: real): (r: seq<real>)
    ensures |r| == |rows| && forall i :: 0 <= i < |rows| ==> r[i] == Abs(rows[i].value - m)
  {
    seq(|rows|, i requires 0 <= i < |rows| => Abs(rows[i].value - m))
  }

  function Or(o: Option<real>): real {
    if o.Some? then o.value else 0.0
  }

  function Mid(rows: seq<Reading>): real {
    Or(Median(Values(rows)))
  }

  function Mad(rows: seq<Reading>): real {
    Or(Median(Deviations(rows, Mid(rows))))
  }

  /** How far from the median a value may lie; no bound for fewer than three values. */
  function Tolerance(rows: seq<Reading>): Option<real> {
    if |rows| >= 3 then
      Some(if Mad(rows) > 0.0 then Max(5.0, 4.0 * Mad(rows)) else Max(20.0, Abs(Mid(rows)) * 0.2))
    else None
  }

  predicate Near(x: real, m: real, tolerance: Option<real>) {
    tolerance.None? || Abs(x - m) <= tolerance.value
  }

  function Kept(rows: seq<Reading>, m: real, tolerance: Option<real>): seq<Reading> {
    if rows == [] then []
    else (if Near(rows[0].value, m, tolerance) then [rows[0]] else []) + Kept(rows[1..], m, tolerance)
  }

  /** The providers whose values are set aside. */
  function Outliers(rows: seq<Reading>, m: real, tolerance: Option<real>): seq<string> {
    if rows == [] then []
    else (if Near(rows[0].value, m, tolerance) then [] else [rows[0].provider]) + Outliers(rows[1..], m, tolerance)
  }

  function Survivors(rows: seq<Reading>): seq<Reading> {
    Kept(rows, Mid(rows), Tolerance(rows))
  }

  // ---------- families ----------

  function Weighing(rows: seq<Reading>): (r: Weighed)
    ensures |r| == |rows| && forall i :: 0 <= i < |rows| ==> r[i] == Keyed(rows[i].value, rows[i].weight)
  {
    seq(|rows|, i requires 0 <= i < |rows| => Keyed(rows[i].value, rows[i].weight))
  }

  /** What a family says: its weighted median, at the weight of its heaviest member. */
  datatype FamilyRow = FamilyRow(family: string, value: real, weight: real, sources: seq<string>)

  function Speak(family: string, members: seq<Reading>): FamilyRow
    requires members != []
  {
    FamilyRow(family, Or(WeightedMedian(Weighing(members))), MaxWeight(members), Providers(members))
  }

  function SpeakFor(rows: seq<Reading>, family: string): FamilyRow
    requires family in FamilyNames(rows)
  {
    InFamilySome(rows, family);
    Speak(family, InFamily(rows, family))
  }

  function FamilyRows(rows: seq<Reading>, families: seq<string>): (r: seq<FamilyRow>)
    requires AllNamed(families, FamilyNames(rows))
    ensures |r| == |families|
    decreases |families|
  {
    if families == [] then []
    else FamilyRows(rows, families[..|families| - 1]) + [SpeakFor(rows, families[|families| - 1])]
  }

  function Speakers(rows: seq<Reading>): seq<FamilyRow> {
    DistinctAreNamed(FamilyNames(rows));
    FamilyRows(rows, Distinct(FamilyNames(rows)))
  }

  function FamilyWeighing(fs: seq<FamilyRow>): (r: Weighed)
    ensures |r| == |fs| && forall i :: 0 <= i < |fs| ==> r[i] == Keyed(fs[i].value, fs[i].weight)
  {
    seq(|fs|, i requires 0 <= i < |fs| => Keyed(fs[i].value, fs[i].weight))
  }

  function FamilySources(fs: seq<FamilyRow>): seq<string>
    decreases |fs|
  {
    if fs == [] then [] else FamilySources(fs[..|fs| - 1]) + fs[|fs| - 1].sources
  }

  // ---------- agreement ----------

  function Highest(rows: seq<Reading>): real
    requires rows != []
    decreases |rows|
  {
    var last := rows[|rows| - 1].value;
    if |rows| == 1 then last else Max(Highest(rows[..|rows| - 1]), last)
  }

  function Lowest(rows: seq<Reading>): real
    requires rows != []
    decreases |rows|
  {
    var last := rows[|rows| - 1].value;
    if |rows| == 1 then last else Min(Lowest(rows[..|rows| - 1]), last)
  }

  /** 1 at distance 0, falling to 0 at the given scale. */
  function Closeness(distance: real, scale: real): real
    requires scale > 0.0
  {
    Max(0.0, 1.0 - Min(1.0, distance / scale))
  }

  function RelativeSpread(rows: seq<Reading>, value: real): real {
    if |rows| > 1 then (Highest(rows) - Lowest(rows)) / Max(1.0, Abs(value)) else 0.0
  }

  function SpreadAgreement(rows: seq<Reading>, value: real): real {
    Closeness(RelativeSpread(rows, value), 0.25)
  }

  function FamilyCloseness(f: FamilyRow, value: real): real {
    Closeness(Abs(f.value - value), Max(5.0, Abs(value) * 0.2))
  }

  function CloseStakes(fs: seq<FamilyRow>, value: real): (r: seq<Stake>)
    ensures |r| == |fs|
    ensures forall i :: 0 <= i < |fs| ==>
            r[i] == Stake(fs[i].family, Times(fs[i].weight, FamilyCloseness(fs[i], value)))
  {
    seq(|fs|, i requires 0 <= i < |fs| => Stake(fs[i].family, Times(fs[i].weight, FamilyCloseness(fs[i], value))))
  }

  function FamilyStakes(fs: seq<FamilyRow>): (r: seq<Stake>)
    ensures |r| == |fs| && forall i :: 0 <= i < |fs| ==> r[i] == Stake(fs[i].family, fs[i].weight)
  {
    seq(|fs|, i requires 0 <= i < |fs| => Stake(fs[i].family, fs[i].weight))
  }

  function DistanceAgreement(fs: seq<FamilyRow>, value: real): real {
    var total := Total(FamilyStakes(fs));
    Total(CloseStakes(fs, value)) / if total != 0.0 then total else 1.0
  }

  // ---------- the number ----------

  datatype Number = Number(value: real, outliers: seq<string>, agreement: real, sources: seq<string>, families: nat)

  function NumberOf(rows: seq<Reading>): Number {
    var kept := Survivors(rows);
    var fs := Speakers(kept);
    var value := Or(WeightedMedian(FamilyWeighing(fs)));
    Number(value, Outliers(rows, Mid(rows), Tolerance(rows)),
           Min(SpreadAgreement(kept, value), DistanceAgreement(fs, value)), FamilySources(fs), |fs|)
  }

  /** The consensus on a number.  The filter is followed by a second test for emptiness. */
  function Robust(obs: seq<Observation<real>>): Option<Number> {
    var rows := Rows(obs);
    if rows == [] then None else if Survivors(rows) == [] then None else Some(NumberOf(rows))
  }

  // ---------- the filter ----------

  lemma {:induction false} KeptCount(rows: seq<Reading>, m: real, tolerance: Option<real>, t: real)
    requires tolerance.Some? ==> t <= tolerance.value
    ensures |Kept(rows, m, tolerance)| >= AtMost(Points(Deviations(rows, m)), t)
    decreases |rows|
  {
    if rows != [] {
      KeptCount(rows[1..], m, tolerance, t);
      assert Points(Deviations(rows, m))[1..] == Points(Deviations(rows[1..], m));
    }
  }

  /** Main result.  At least half of the values survive the filter, so the second test for emptiness
      never succeeds. */
  lemma HalfSurvive(rows: seq<Reading>)
    requires rows != []
    ensures 2 * |Survivors(rows)| >= |rows| && Survivors(rows) != []
  {
    var m := Mid(rows);
    MedianIsMiddle(Deviations(rows, m));
    KeptCount(rows, m, Tolerance(rows), Mad(rows));
  }

  lemma RobustIff(obs: seq<Observation<real>>)
    ensures Robust(obs).Some? <==> Rows(obs) != []
  {
    if Rows(obs) != [] {
      HalfSurvive(Rows(obs));
    }
  }

  lemma {:induction false} KeptMember(rows: seq<Reading>, m: real, tolerance: Option<real>, r: Reading)
    ensures r in Kept(rows, m, tolerance) <==> r in rows && Near(r.value, m, tolerance)
    decreases |rows|
  {
    if rows != [] {
      KeptMember(rows[1..], m, tolerance, r);
      assert rows == [rows[0]] + rows[1..];
    }
  }

  lemma {:induction false} KeptWeighted(rows: seq<Reading>, m: real, tolerance: Option<real>)
    requires Weighted(rows)
    ensures Weighted(Kept(rows, m, tolerance))
    decreases |rows|
  {
    if rows != [] {
      KeptWeighted(rows[1..], m, tolerance);
    }
  }

  /** Every provider is either kept or set aside as an outlier. */
  lemma {:induction false} KeptOrOutlier(rows: seq<Reading>, m: real, tolerance: Option<real>, p: string)
    ensures p in Providers(rows) <==> p in Providers(Kept(rows, m, tolerance)) || p in Outliers(rows, m, tolerance)
    decreases |rows|
  {
    if rows != [] {
      KeptOrOutlier(rows[1..], m, tolerance, p);
      assert Providers(rows) == [rows[0].provider] + Providers(rows[1..]);
      var rest := Kept(rows[1..], m, tolerance);
      if Near(rows[0].value, m, tolerance) {
        assert Providers(Kept(rows, m, tolerance)) == [rows[0].provider] + Providers(rest);
      } else {
        assert Kept(rows, m, tolerance) == rest;
      }
    }
  }
}
