/** Rows of evidence and the upstream families they belong to (src/core/consensus.ts), for values of any
    kind. */
module Families {
  import opened Collections
  import opened Tally

  /** What one provider says of a field: nothing when it has no usable value. */
  datatype Observation<V> = Observation(provider: string, family: string, value: Option<V>, weight: real)

  /** What a provider says, the family its data comes from, and the weight it has. */
  datatype Row<V> = Row(provider: string, family: string, value: V, weight: real)

  function Providers<V>(rows: seq<Row<V>>): (r: seq<string>)
    ensures |r| == |rows| && forall i :: 0 <= i < |rows| ==> r[i] == rows[i].provider
  {
    seq(|rows|, i requires 0 <= i < |rows| => rows[i].provider)
  }

  predicate Weighted<V>(rows: seq<Row<V>>) {
    forall i :: 0 <= i < |rows| ==> rows[i].weight > 0.0
  }

  predicate DistinctProviders<V>(rows: seq<Row<V>>) {
    NoDuplicates(Providers(rows))
  }

  lemma ProviderOf<V>(rows: seq<Row<V>>, p: string) returns (r: Row<V>)
    requires p in Providers(rows)
    ensures r in rows && r.provider == p
  {
    var i :| 0 <= i < |rows| && Providers(rows)[i] == p;
    r := rows[i];
  }

  /** A provider has one row. */
  lemma OneRow<V>(rows: seq<Row<V>>, r: Row<V>, r': Row<V>)
    requires DistinctProviders(rows) && r in rows && r' in rows && r.provider == r'.provider
    ensures r == r'
  {
    var i :| 0 <= i < |rows| && rows[i] == r;
    var j :| 0 <= j < |rows| && rows[j] == r';
    assert Providers(rows)[i] == Providers(rows)[j];
  }

  // ---------- from observations to rows ----------

  /** The observations that have a value. */
  function Rows<V>(obs: seq<Observation<V>>): seq<Row<V>>
    decreases |obs|
  {
    if obs == [] then []
    else
      var o := obs[|obs| - 1];
      Rows(obs[..|obs| - 1]) + if o.value.Some? then [Row(o.provider, o.family, o.value.value, o.weight)] else []
  }

  lemma RowsSnoc<V>(obs: seq<Observation<V>>, o: Observation<V>)
    ensures Rows(obs + [o])
         == if o.value.Some? then Rows(obs) + [Row(o.provider, o.family, o.value.value, o.weight)] else Rows(obs)
  {
    assert (obs + [o])[..|obs|] == obs;
  }

  predicate DistinctObservers<V>(obs: seq<Observation<V>>) {
    forall i, j :: 0 <= i < j < |obs| ==> obs[i].provider != obs[j].provider
  }

  lemma {:induction false} RowOrigin<V>(obs: seq<Observation<V>>, i: nat) returns (j: nat)
    requires i < |Rows(obs)|
    ensures j < |obs|
    ensures obs[j] ==
            Observation(Rows(obs)[i].provider, Rows(obs)[i].family, Some(Rows(obs)[i].value), Rows(obs)[i].weight)
    decreases |obs|
  {
    var init := obs[..|obs| - 1];
    if i < |Rows(init)| {
      j := RowOrigin(init, i);
    } else {
      j := |obs| - 1;
    }
  }

  /** The observations of distinct providers with positive weights give rows of the same kind. */
  lemma {:induction false} RowsProper<V>(obs: seq<Observation<V>>)
    requires DistinctObservers(obs) && forall i :: 0 <= i < |obs| ==> obs[i].weight > 0.0
    ensures DistinctProviders(Rows(obs)) && Weighted(Rows(obs))
    decreases |obs|
  {
    if obs != [] {
      var init := obs[..|obs| - 1];
      RowsProper(init);
      forall i | 0 <= i < |Rows(init)| ensures Rows(init)[i].provider != obs[|obs| - 1].provider {
        var j := RowOrigin(init, i);
      }
    }
  }

  // ---------- weights ----------

  function MaxWeight<V>(rows: seq<Row<V>>): real
    requires rows != []
    decreases |rows|
  {
    var last := rows[|rows| - 1].weight;
    if |rows| == 1 then last else Max(MaxWeight(rows[..|rows| - 1]), last)
  }

  lemma {:induction false} MaxWeightPlace<V>(rows: seq<Row<V>>) returns (j: nat)
    requires rows != []
    ensures j < |rows| && rows[j].weight == MaxWeight(rows)
    ensures forall i :: 0 <= i < |rows| ==> rows[i].weight <= MaxWeight(rows)
    decreases |rows|
  {
    j := |rows| - 1;
    if |rows| > 1 {
      var i := MaxWeightPlace(rows[..|rows| - 1]);
      if rows[j].weight < rows[i].weight {
        j := i;
      }
    }
  }

  /** A member no heavier than the heaviest does not change the weight of the heaviest. */
  lemma MaxWeightInsert<V>(a: seq<Row<V>>, r: Row<V>, b: seq<Row<V>>)
    requires a + b != [] && r.weight <= MaxWeight(a + b)
    ensures MaxWeight(a + [r] + b) == MaxWeight(a + b)
  {
    var all := a + [r] + b;
    var i := MaxWeightPlace(a + b);
    var j := MaxWeightPlace(all);
    assert all[if i < |a| then i else i + 1] == (a + b)[i];
    assert all[j] == if j < |a| then (a + b)[j] else if j == |a| then r else (a + b)[j - 1];
  }

  // ---------- families ----------

  function FamilyNames<V>(rows: seq<Row<V>>): (r: seq<string>)
    ensures |r| == |rows| && forall i :: 0 <= i < |rows| ==> r[i] == rows[i].family
  {
    seq(|rows|, i requires 0 <= i < |rows| => rows[i].family)
  }

  function InFamily<V>(rows: seq<Row<V>>, family: string): seq<Row<V>>
    decreases |rows|
  {
    if rows == [] then []
    else InFamily(rows[..|rows| - 1], family) + if rows[|rows| - 1].family == family then [rows[|rows| - 1]] else []
  }

  lemma {:induction false} InFamilySome<V>(rows: seq<Row<V>>, family: string)
    ensures InFamily(rows, family) != [] <==> family in FamilyNames(rows)
    decreases |rows|
  {
    if rows != [] {
      var init := rows[..|rows| - 1];
      InFamilySome(init, family);
      assert FamilyNames(rows) == FamilyNames(init) + [rows[|rows| - 1].family];
    }
  }

  lemma {:induction false} InFamilyConcat<V>(a: seq<Row<V>>, b: seq<Row<V>>, family: string)
    ensures InFamily(a + b, family) == InFamily(a, family) + InFamily(b, family)
    decreases |b|
  {
    if b == [] {
      assert a + b == a;
    } else {
      InFamilyConcat(a, b[..|b| - 1], family);
      assert (a + b)[..|a + b| - 1] == a + b[..|b| - 1];
    }
  }

  lemma {:induction false} InFamilyMember<V>(rows: seq<Row<V>>, family: string, r: Row<V>)
    ensures r in InFamily(rows, family) <==> r in rows && r.family == family
    decreases |rows|
  {
    if rows != [] {
      InFamilyMember(rows[..|rows| - 1], family, r);
      assert rows == rows[..|rows| - 1] + [rows[|rows| - 1]];
    }
  }

  lemma {:induction false} InFamilyWeighted<V>(rows: seq<Row<V>>, family: string)
    requires Weighted(rows)
    ensures Weighted(InFamily(rows, family))
    decreases |rows|
  {
    if rows != [] {
      InFamilyWeighted(rows[..|rows| - 1], family);
    }
  }

  predicate AllNamed(families: seq<string>, names: seq<string>) {
    forall i :: 0 <= i < |families| ==> families[i] in names
  }

  lemma DistinctAreNamed(names: seq<string>)
    ensures AllNamed(Distinct(names), names)
  {
    forall i | 0 <= i < |Distinct(names)| ensures Distinct(names)[i] in names {
      DistinctMembers(names, Distinct(names)[i]);
    }
  }

  lemma RowFamily<V>(rows: seq<Row<V>>, r: Row<V>)
    requires r in rows
    ensures r.family in FamilyNames(rows) && r.family in Distinct(FamilyNames(rows))
  {
    var i :| 0 <= i < |rows| && rows[i] == r;
    assert FamilyNames(rows)[i] == r.family;
    DistinctMembers(FamilyNames(rows), r.family);
  }

  // ---------- tables keyed in order of first appearance ----------

  lemma PutPlaces<V>(m: Dict<string, V>, k: string, v: V, j: nat)
    requires Unique(m) && j < |Put(m, k, v)|
    ensures Put(m, k, v)[j].0 == k ==> Put(m, k, v)[j] == (k, v)
    ensures Put(m, k, v)[j].0 != k ==> j < |m| && Put(m, k, v)[j] == m[j]
  {
    if j < |m| && m[j].0 == k {
      IndexOfUnique(m, j);
    }
  }

  lemma PutKeys<V>(names: seq<string>, m: Dict<string, V>, k: string, v: V)
    requires Keys(m) == Distinct(names)
    ensures Keys(Put(m, k, v)) == Distinct(names + [k])
  {
    HasIff(m, k);
    var i := IndexOf(m, k);
    if i < |m| {
      assert Keys(Put(m, k, v)) == Keys(m);
    } else {
      assert Keys(Put(m, k, v)) == Keys(m) + [k];
    }
  }

  lemma KeysUnique<V>(names: seq<string>, m: Dict<string, V>)
    requires Keys(m) == Distinct(names)
    ensures Unique(m)
  {
    DistinctOnce(names);
    assert forall i :: 0 <= i < |m| ==> Keys(m)[i] == m[i].0;
  }

  ghost predicate FamiliesOf<V>(m: Dict<string, seq<Row<V>>>, rows: seq<Row<V>>) {
    && Keys(m) == Distinct(FamilyNames(rows))
    && forall j :: 0 <= j < |m| ==> m[j].1 == InFamily(rows, m[j].0)
  }

  method AddToFamily<V>(m: Dict<string, seq<Row<V>>>, r: Row<V>, ghost rows: seq<Row<V>>)
    returns (m': Dict<string, seq<Row<V>>>)
    requires FamiliesOf(m, rows)
    ensures FamiliesOf(m', rows + [r])
  {
    var found := Get(m, r.family);
    var list := if found.Some? then found.value else [];
    m' := Put(m, r.family, list + [r]);
    KeysUnique(FamilyNames(rows), m);
    PutKeys(FamilyNames(rows), m, r.family, list + [r]);
    assert FamilyNames(rows + [r]) == FamilyNames(rows) + [r.family];
    assert list == InFamily(rows, r.family) by {
      HasIff(m, r.family);
      DistinctMembers(FamilyNames(rows), r.family);
      InFamilySome(rows, r.family);
    }
    forall j | 0 <= j < |m'| ensures m'[j].1 == InFamily(rows + [r], m'[j].0) {
      PutPlaces(m, r.family, list + [r], j);
    }
  }

  /** Sorts rows into their families, one by one. */
  method GroupRows<V>(rows: seq<Row<V>>) returns (m: Dict<string, seq<Row<V>>>)
    ensures FamiliesOf(m, rows)
  {
    m := [];
    for i := 0 to |rows|
      invariant FamiliesOf(m, rows[..i])
    {
      assert rows[..i + 1] == rows[..i] + [rows[i]];
      m := AddToFamily(m, rows[i], rows[..i]);
    }
    assert rows[..|rows|] == rows;
  }
}
