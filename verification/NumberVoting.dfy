/** The loops of the vote on a number (src/core/consensus.ts, `robustNumber`).  They compute what
    `RobustNumber` defines. */
module NumberVoting {
  import opened Collections
  import opened Sorting
  import opened Tally
  import opened Families
  import opened Medians
  import opened RobustNumber

  method CollectRows(obs: seq<Observation<real>>) returns (rows: seq<Reading>)
    ensures rows == Rows(obs)
  {
    rows := [];
    for i := 0 to |obs|
      invariant rows == Rows(obs[..i])
    {
      var o := obs[i];
      assert obs[..i + 1] == obs[..i] + [o];
      RowsSnoc(obs[..i], o);
      if o.value.Some? {
        rows := rows + [Row(o.provider, o.family, o.value.value, o.weight)];
      }
    }
    assert obs[..|obs|] == obs;
  }

  lemma {:induction false} ScreenNext(rows: seq<Reading>, i: nat, m: real, tolerance: Option<real>)
    requires i < |rows|
    ensures Kept(rows[i..], m, tolerance)
         == (if Near(rows[i].value, m, tolerance) then [rows[i]] else []) + Kept(rows[i + 1..], m, tolerance)
    ensures Outliers(rows[i..], m, tolerance)
         == (if Near(rows[i].value, m, tolerance) then [] else [rows[i].provider])
             + Outliers(rows[i + 1..], m, tolerance)
  {
    assert rows[i..][1..] == rows[i + 1..] && rows[i..][0] == rows[i];
  }

  /** Separates the values near the median from the others. */
  method Screen(rows: seq<Reading>, m: real, tolerance: Option<real>)
    returns (kept: seq<Reading>, outliers: seq<string>)
    ensures kept == Kept(rows, m, tolerance) && outliers == Outliers(rows, m, tolerance)
  {
    kept, outliers := [], [];
    for i := 0 to |rows|
      invariant kept + Kept(rows[i..], m, tolerance) == Kept(rows, m, tolerance)
      invariant outliers + Outliers(rows[i..], m, tolerance) == Outliers(rows, m, tolerance)
    {
      ScreenNext(rows, i, m, tolerance);
      if Near(rows[i].value, m, tolerance) {
        ConcatAssociates(kept, [rows[i]], Kept(rows[i + 1..], m, tolerance));
        kept := kept + [rows[i]];
      } else {
        ConcatAssociates(outliers, [rows[i].provider], Outliers(rows[i + 1..], m, tolerance));
        outliers := outliers + [rows[i].provider];
      }
    }
  }

  /** What one family says. */
  method SpeakAlone(family: string, members: seq<Reading>) returns (f: FamilyRow)
    requires members != []
    ensures f == Speak(family, members)
  {
    var median := FindWeightedMedian(Weighing(members));
    var heaviest := members[0].weight;
    assert MaxWeight(members[..1]) == heaviest;
    for i := 1 to |members|
      invariant heaviest == MaxWeight(members[..i])
    {
      assert members[..i + 1][..i] == members[..i];
      heaviest := Max(heaviest, members[i].weight);
    }
    assert members[..|members|] == members;
    f := FamilyRow(family, Or(median), heaviest, Providers(members));
  }

  lemma FamilyRowsNext(rows: seq<Reading>, families: seq<string>, i: nat)
    requires AllNamed(families, FamilyNames(rows)) && i < |families|
    ensures AllNamed(families[..i], FamilyNames(rows)) && AllNamed(families[..i + 1], FamilyNames(rows))
    ensures FamilyRows(rows, families[..i + 1]) == FamilyRows(rows, families[..i]) + [SpeakFor(rows, families[i])]
  {
    assert families[..i + 1][..i] == families[..i];
  }

  /** What each family says, and whom they speak for. */
  method SpeakAll(rows: seq<Reading>) returns (fs: seq<FamilyRow>, sources: seq<string>)
    ensures fs == Speakers(rows) && sources == FamilySources(fs)
  {
    var families := GroupRows(rows);
    ghost var names := Distinct(FamilyNames(rows));
    DistinctAreNamed(FamilyNames(rows));
    fs, sources := [], [];
    for i := 0 to |families|
      invariant AllNamed(names[..i], FamilyNames(rows)) && fs == FamilyRows(rows, names[..i])
      invariant sources == FamilySources(fs)
    {
      var (family, members) := families[i];
      FamilyRowsNext(rows, names, i);
      InFamilySome(rows, family);
      assert Keys(families)[i] == family;
      var f := SpeakAlone(family, members);
      assert (fs + [f])[..|fs|] == fs;
      fs := fs + [f];
      sources := sources + f.sources;
    }
    assert names[..|families|] == names;
  }

  /** The smallest and the largest value. */
  method Extent(rows: seq<Reading>) returns (low: real, high: real)
    requires rows != []
    ensures low == Lowest(rows) && high == Highest(rows)
  {
    low, high := rows[0].value, rows[0].value;
    assert Lowest(rows[..1]) == low && Highest(rows[..1]) == high;
    for i := 1 to |rows|
      invariant low == Lowest(rows[..i]) && high == Highest(rows[..i])
    {
      assert rows[..i + 1][..i] == rows[..i];
      low, high := Min(low, rows[i].value), Max(high, rows[i].value);
    }
    assert rows[..|rows|] == rows;
  }

  /** How close the families are to the consensus, by weight. */
  method MeasureDistance(fs: seq<FamilyRow>, value: real) returns (agreement: real)
    ensures agreement == DistanceAgreement(fs, value)
  {
    var close, total := 0.0, 0.0;
    ghost var s, t := CloseStakes(fs, value), FamilyStakes(fs);
    for i := 0 to |fs|
      invariant close == Total(s[..i]) && total == Total(t[..i])
    {
      TotalNext(s, i);
      TotalNext(t, i);
      close := close + Times(fs[i].weight, FamilyCloseness(fs[i], value));
      total := total + fs[i].weight;
    }
    assert s[..|fs|] == s && t[..|fs|] == t;
    agreement := close / if total != 0.0 then total else 1.0;
  }

  method MeasureSpread(rows: seq<Reading>, value: real) returns (agreement: real)
    ensures agreement == SpreadAgreement(rows, value)
  {
    var spread := 0.0;
    if |rows| > 1 {
      var low, high := Extent(rows);
      spread := (high - low) / Max(1.0, Abs(value));
    }
    agreement := Closeness(spread, 0.25);
  }

  /** The consensus on a number. */
  method FindNumber(obs: seq<Observation<real>>) returns (n: Option<Number>)
    ensures n == Robust(obs)
  {
    var rows := CollectRows(obs);
    if rows == [] {
      return None;
    }
    var m := Mid(rows);
    var kept, outliers := Screen(rows, m, Tolerance(rows));
    if kept == [] {
      return None;
    }
    var fs, sources := SpeakAll(kept);
    var median := FindWeightedMedian(FamilyWeighing(fs));
    var value := Or(median);
    var spread := MeasureSpread(kept, value);
    var distance := MeasureDistance(fs, value);
    n := Some(Number(value, outliers, Min(spread, distance), sources, |fs|));
  }
}
