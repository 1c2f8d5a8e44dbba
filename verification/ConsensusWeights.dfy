/** The arithmetic of a discrete consensus, said of the raw rows: what each family says and with what
    weight, which value wins, and the exact agreement (src/core/consensus.ts, `familyDiscrete` and
    `discreteField`). */
module ConsensusWeights {
  import opened Collections
  import opened Tally
  import opened Families
  import opened Consensus
  import opened ConsensusLaws

  // ---------- sums over the rows ----------

  /** The weight of all members of a family. */
  function FamilySum<V>(rows: seq<Row<V>>, family: string): real
    decreases |rows|
  {
    if rows == [] then 0.0 else
    var last := rows[|rows| - 1];
    FamilySum(rows[..|rows| - 1], family) + if last.family == family then last.weight else 0.0
  }

  /** The weight of the members of a family that gave the value with this key. */
  function SaidSum(rows: seq<Ballot>, family: string, key: string): real
    decreases |rows|
  {
    if rows == [] then 0.0 else
    var last := rows[|rows| - 1];
    SaidSum(rows[..|rows| - 1], family, key)
    + if last.family == family && last.value.key == key then last.weight else 0.0
  }

  lemma StakesSnoc(rows: seq<Ballot>, r: Ballot, key: string)
    ensures Total(Stakes(rows + [r])) == Total(Stakes(rows)) + r.weight
    ensures WeightOf(Stakes(rows + [r]), key)
         == WeightOf(Stakes(rows), key) + if r.value.key == key then r.weight else 0.0
  {
    assert Stakes(rows + [r]) == Stakes(rows) + [Stake(r.value.key, r.weight)];
    assert (Stakes(rows) + [Stake(r.value.key, r.weight)])[..|rows|] == Stakes(rows);
  }

  lemma {:induction false} FamilySums(rows: seq<Ballot>, family: string, key: string)
    ensures Total(Stakes(InFamily(rows, family))) == FamilySum(rows, family)
    ensures WeightOf(Stakes(InFamily(rows, family)), key) == SaidSum(rows, family, key)
    decreases |rows|
  {
    if rows != [] {
      var init, last := rows[..|rows| - 1], rows[|rows| - 1];
      FamilySums(init, family, key);
      if last.family == family {
        StakesSnoc(InFamily(init, family), last, key);
      } else {
        assert InFamily(rows, family) == InFamily(init, family);
      }
    }
  }

  // ---------- the vote of a family ----------

  /** The weight is that of the heaviest member of the family. */
  ghost predicate HeaviestMember<V>(rows: seq<Row<V>>, family: string, weight: real) {
    && (exists r :: r in rows && r.family == family && r.weight == weight)
    && forall r :: r in rows && r.family == family ==> r.weight <= weight
  }

  lemma HeaviestIsMember<V>(rows: seq<Row<V>>, family: string, heaviest: real)
    requires family in FamilyNames(rows)
    ensures InFamily(rows, family) != []
    ensures HeaviestMember(rows, family, heaviest) <==> heaviest == MaxWeight(InFamily(rows, family))
  {
    InFamilySome(rows, family);
    var members := InFamily(rows, family);
    var j := MaxWeightPlace(members);
    InFamilyMember(rows, family, members[j]);
    forall r | r in rows && r.family == family ensures r.weight <= MaxWeight(members) {
      InFamilyMember(rows, family, r);
    }
  }

  function AtLeast15(share: real): real {
    if share >= 0.15 then share else 0.15
  }

  lemma MembersVote(family: string, members: seq<Ballot>, key: string)
    requires members != [] && Weighted(members)
    ensures var v, s := VoteOf(family, members), Stakes(members);
            && v.family == family
            && WeightOf(s, key) <= WeightOf(s, v.value.key)
            && Times(v.agreement, Total(s)) == WeightOf(s, v.value.key)
            && v.weight == Times(MaxWeight(members), AtLeast15(v.agreement))
  {
    VoteParts(family, members);
    HeaviestSaid(members, key);
    TotalPositive(Stakes(members));
    ShareTimes(WeightOf(Stakes(members), Winner(Stakes(members))), Total(Stakes(members)),
               VoteOf(family, members).agreement);
  }

  /** A family votes for the value most of its weight gave.  Its agreement is the share of that weight, and
      it votes with the weight of its heaviest member times that share, which counts as at least .15. */
  lemma FamilyVoteIsExact(rows: seq<Ballot>, family: string, key: string, heaviest: real)
    requires Weighted(rows) && family in FamilyNames(rows) && HeaviestMember(rows, family, heaviest)
    ensures var v := VoteFor(rows, family);
            && v.family == family
            && SaidSum(rows, family, key) <= SaidSum(rows, family, v.value.key)
            && Times(v.agreement, FamilySum(rows, family)) == SaidSum(rows, family, v.value.key)
            && v.weight == Times(heaviest, AtLeast15(v.agreement))
  {
    HeaviestIsMember(rows, family, heaviest);
    InFamilyWeighted(rows, family);
    MembersVote(family, InFamily(rows, family), key);
    FamilySums(rows, family, key);
    FamilySums(rows, family, VoteFor(rows, family).value.key);
  }

  lemma HeaviestSaid(members: seq<Ballot>, key: string)
    requires members != [] && Weighted(members)
    ensures WeightOf(Stakes(members), key) <= WeightOf(Stakes(members), Winner(Stakes(members)))
  {
    var s := Stakes(members);
    ShareSome(s, key);
    ShareSome(s, Winner(s));
    if key in KeysOf(s) {
      WinnerIsHeaviest(s, key);
    }
  }

  lemma ShareTimes(part: real, whole: real, share: real)
    requires whole > 0.0 && share == part / whole
    ensures Times(share, whole) == part
  {
  }

  // ---------- the field ----------

  function VotedSum(votes: seq<Vote>): real
    decreases |votes|
  {
    if votes == [] then 0.0 else VotedSum(votes[..|votes| - 1]) + votes[|votes| - 1].weight
  }

  /** The weight of the votes for a key. */
  function VotedFor(votes: seq<Vote>, key: string): real
    decreases |votes|
  {
    if votes == [] then 0.0 else
    var last := votes[|votes| - 1];
    VotedFor(votes[..|votes| - 1], key) + if last.value.key == key then last.weight else 0.0
  }

  /** The same with each vote counted as far as its family agrees. */
  function AgreedFor(votes: seq<Vote>, key: string): real
    decreases |votes|
  {
    if votes == [] then 0.0 else
    var last := votes[|votes| - 1];
    AgreedFor(votes[..|votes| - 1], key) + if last.value.key == key then Times(last.weight, last.agreement) else 0.0
  }

  lemma {:induction false} VoteSums(votes: seq<Vote>, key: string)
    ensures Total(VoteStakes(votes)) == VotedSum(votes) && WeightOf(VoteStakes(votes), key) == VotedFor(votes, key)
    decreases |votes|
  {
    if votes != [] {
      var init := votes[..|votes| - 1];
      VoteSums(init, key);
      assert VoteStakes(votes)[..|init|] == VoteStakes(init);
    }
  }

  lemma AgreedSnoc(votes: seq<Vote>, v: Vote)
    ensures Total(AgreedStakes(votes + [v])) == Total(AgreedStakes(votes)) + Times(v.weight, v.agreement)
  {
    var s := AgreedStakes(votes + [v]);
    assert s[..|votes|] == AgreedStakes(votes);
  }

  lemma {:induction false} AgreedSums(votes: seq<Vote>, key: string)
    ensures Total(AgreedStakes(VotesFor(votes, key))) == AgreedFor(votes, key)
    decreases |votes|
  {
    if votes != [] {
      var init, last := votes[..|votes| - 1], votes[|votes| - 1];
      AgreedSums(init, key);
      if last.value.key == key {
        AgreedSnoc(VotesFor(init, key), last);
      } else {
        assert VotesFor(votes, key) == VotesFor(init, key);
      }
    }
  }

  lemma TwoShares(agreed: real, won: real, all: real)
    requires won > 0.0 && all > 0.0
    ensures (won / all) * (agreed / won) * all == agreed
  {
    var x, y := won / all, agreed / won;
    assert x * all == won && y * won == agreed;
  }

  /** Main result.  The consensus is the value with most of the families' weight, and its agreement is exactly
      the share of all that weight that families gave it, each as far as it agrees in itself. */
  lemma FieldIsExact(rows: seq<Ballot>, key: string)
    requires Weighted(rows) && Votes(rows) != []
    ensures var f, votes := FieldOf(Votes(rows)), Votes(rows);
            && VotedFor(votes, key) <= VotedFor(votes, f.value.key)
            && Times(f.agreement, VotedSum(votes)) == AgreedFor(votes, f.value.key)
  {
    VotesProper(rows);
    VotesField(Votes(rows), key);
  }

  lemma VotesField(votes: seq<Vote>, key: string)
    requires votes != [] && Proper(votes)
    ensures VotedFor(votes, key) <= VotedFor(votes, FieldOf(votes).value.key)
    ensures Times(FieldOf(votes).agreement, VotedSum(votes)) == AgreedFor(votes, FieldOf(votes).value.key)
  {
    var s := VoteStakes(votes);
    var won := Winner(s);
    FieldParts(votes);
    VoteSums(votes, won);
    VoteSums(votes, key);
    AgreedSums(votes, won);
    WinnerShare(s);
    HeaviestVoted(votes, key);
    FieldShare(Total(AgreedStakes(VotesFor(votes, won))), WeightOf(s, won), Total(s), FieldOf(votes).agreement);
  }

  lemma FieldShare(agreed: real, won: real, all: real, agreement: real)
    requires won > 0.0 && all > 0.0 && agreement == Times(won / all, agreed / won)
    ensures Times(agreement, all) == agreed
  {
    TwoShares(agreed, won, all);
  }

  lemma HeaviestVoted(votes: seq<Vote>, key: string)
    requires votes != [] && Proper(votes)
    ensures WeightOf(VoteStakes(votes), key) <= WeightOf(VoteStakes(votes), Winner(VoteStakes(votes)))
  {
    var s := VoteStakes(votes);
    ShareSome(s, key);
    ShareSome(s, Winner(s));
    if key in KeysOf(s) {
      WinnerIsHeaviest(s, key);
    }
  }

  // ---------- who votes, and whose words are used ----------

  /** The names are listed in the order in which they first occur. */
  lemma {:induction false} DistinctInOrder(names: seq<string>, i: nat, j: nat) returns (k: nat)
    requires i < j < |Distinct(names)|
    ensures k < |names| && names[k] == Distinct(names)[i] && Distinct(names)[j] !in names[..k + 1]
    decreases |names|
  {
    var n := |names| - 1;
    var init := names[..n];
    if j < |Distinct(init)| {
      k := DistinctInOrder(init, i, j);
      assert names[..k + 1] == init[..k + 1];
    } else {
      DistinctMembers(init, names[n]);
      DistinctMembers(init, Distinct(init)[i]);
      k :| 0 <= k < n && init[k] == Distinct(init)[i];
      assert forall x :: x in names[..k + 1] ==> x in init;
    }
  }

  /** Every family with a row votes, once, in the order of the families' first rows. */
  lemma EachFamilyVotesOnce(rows: seq<Ballot>, i: nat)
    requires i < |Votes(rows)|
    ensures Votes(rows)[i].family in FamilyNames(rows)
    ensures forall r :: r in rows ==> exists k :: 0 <= k < |Votes(rows)| && Votes(rows)[k].family == r.family
    ensures forall j :: i < j < |Votes(rows)| ==>
            exists k :: 0 <= k < |rows| && rows[k].family == Votes(rows)[i].family
                        && forall l :: 0 <= l <= k ==> rows[l].family != Votes(rows)[j].family
  {
    var votes, families := Votes(rows), Distinct(FamilyNames(rows));
    DistinctAreNamed(FamilyNames(rows));
    forall k | 0 <= k < |votes| ensures votes[k].family == families[k] {
      VotesAt(rows, families, k);
    }
    forall r | r in rows ensures exists k :: 0 <= k < |votes| && votes[k].family == r.family {
      RowFamily(rows, r);
    }
    forall j | i < j < |votes|
      ensures exists k :: 0 <= k < |rows| && rows[k].family == votes[i].family
                          && forall l :: 0 <= l <= k ==> rows[l].family != votes[j].family
    {
      var k := DistinctInOrder(FamilyNames(rows), i, j);
      forall l | 0 <= l <= k ensures rows[l].family != families[j] {
        assert FamilyNames(rows)[l] == FamilyNames(rows)[..k + 1][l];
      }
    }
  }

  /** Row i is the first of its family to give this key. */
  ghost predicate FirstToSay(rows: seq<Ballot>, i: int, family: string, key: string) {
    && 0 <= i < |rows| && rows[i].family == family && rows[i].value.key == key
    && forall l :: 0 <= l < i ==> rows[l].family != family || rows[l].value.key != key
  }

  lemma SupportersSnoc(init: seq<Ballot>, last: Ballot, family: string, key: string)
    ensures WithKey(InFamily(init + [last], family), key)
         == WithKey(InFamily(init, family), key)
            + if last.family == family && last.value.key == key then [last] else []
  {
    var members := InFamily(init, family);
    assert (init + [last])[..|init|] == init;
    if last.family == family {
      assert InFamily(init + [last], family) == members + [last];
      assert (members + [last])[..|members|] == members;
    } else {
      assert InFamily(init + [last], family) == members;
    }
  }

  lemma {:induction false} FirstSupporter(rows: seq<Ballot>, family: string, key: string) returns (i: nat)
    requires WithKey(InFamily(rows, family), key) != []
    ensures FirstToSay(rows, i, family, key) && WithKey(InFamily(rows, family), key)[0] == rows[i]
    decreases |rows|
  {
    var n := |rows| - 1;
    var init := rows[..n];
    assert rows == init + [rows[n]];
    SupportersSnoc(init, rows[n], family, key);
    if WithKey(InFamily(init, family), key) != [] {
      i := FirstSupporter(init, family, key);
    } else {
      i := n;
      forall l | 0 <= l < n ensures rows[l].family != family || rows[l].value.key != key {
        InFamilyMember(init, family, init[l]);
        WithKeyMember(InFamily(init, family), key, init[l]);
      }
    }
  }

  /** A family speaks in the words of its first member with the winning key. */
  lemma VoteWords(rows: seq<Ballot>, family: string) returns (i: nat)
    requires family in FamilyNames(rows)
    ensures FirstToSay(rows, i, family, VoteFor(rows, family).value.key) && rows[i].value == VoteFor(rows, family).value
  {
    InFamilySome(rows, family);
    var members := InFamily(rows, family);
    VoteKey(family, members);
    var supporters := Supporters(members);
    i := FirstSupporter(rows, family, Winner(Stakes(members)));
  }

  lemma {:induction false} FirstVote(votes: seq<Vote>, key: string) returns (j: nat)
    requires VotesFor(votes, key) != []
    ensures j < |votes| && votes[j] == VotesFor(votes, key)[0] && votes[j].value.key == key
    ensures forall l :: 0 <= l < j ==> votes[l].value.key != key
    decreases |votes|
  {
    var n := |votes| - 1;
    if VotesFor(votes[..n], key) != [] {
      j := FirstVote(votes[..n], key);
    } else {
      j := n;
      forall l | 0 <= l < n ensures votes[l].value.key != key {
        VotesForSome(votes[..n], key);
        assert KeysOf(VoteStakes(votes[..n]))[l] == votes[l].value.key;
      }
    }
  }

  /** The consensus is given in the words of the first such member of the first family to vote for it. */
  lemma FieldWords(rows: seq<Ballot>) returns (i: nat, j: nat)
    requires Votes(rows) != []
    ensures var f, votes := FieldOf(Votes(rows)), Votes(rows);
            && j < |votes| && votes[j].value.key == f.value.key
            && (forall l :: 0 <= l < j ==> votes[l].value.key != f.value.key)
            && FirstToSay(rows, i, votes[j].family, f.value.key) && rows[i].value == f.value
  {
    var votes := Votes(rows);
    FieldKey(votes);
    WinnerPresent(VoteStakes(votes));
    VotesForSome(votes, Winner(VoteStakes(votes)));
    j := FirstVote(votes, Winner(VoteStakes(votes)));
    var family := VoteOrigin(rows, j);
    i := VoteWords(rows, family);
    assert votes[j].family == family;
  }

  // ---------- counts ----------

  /** How many families the rows come from. */
  function FamilyCount<V>(rows: seq<Row<V>>): nat {
    |set i | 0 <= i < |rows| :: rows[i].family|
  }

  lemma FamiliesCounted<V>(rows: seq<Row<V>>)
    ensures |Distinct(FamilyNames(rows))| == FamilyCount(rows)
  {
    var names := FamilyNames(rows);
    DistinctOnce(names);
    MembersCount(Distinct(names));
    forall n ensures n in Members(Distinct(names)) <==> n in Members(names) {
      DistinctMembers(names, n);
    }
    assert Members(Distinct(names)) == Members(names) == (set i | 0 <= i < |rows| :: rows[i].family);
  }

  lemma {:induction false} AppendOnce(a: seq<string>, x: string)
    requires NoDuplicates(a) && x !in a
    ensures NoDuplicates(a + [x])
  {
  }

  lemma {:induction false} MembersOnce<V>(rows: seq<Row<V>>, family: string)
    requires DistinctProviders(rows)
    ensures DistinctProviders(InFamily(rows, family))
    decreases |rows|
  {
    if rows != [] {
      var init, last := rows[..|rows| - 1], rows[|rows| - 1];
      MembersOnce(init, family);
      var members := InFamily(init, family);
      if last.family == family {
        if last.provider in Providers(members) {
          var r := ProviderOf(members, last.provider);
          InFamilyMember(init, family, r);
          LastIsOther(rows, r);
        }
        AppendOnce(Providers(members), last.provider);
        assert Providers(InFamily(rows, family)) == Providers(members) + [last.provider];
      }
    }
  }

  lemma LastIsOther<V>(rows: seq<Row<V>>, r: Row<V>)
    requires DistinctProviders(rows) && rows != [] && r in rows[..|rows| - 1]
    ensures r.provider != rows[|rows| - 1].provider
  {
    var i :| 0 <= i < |rows| - 1 && rows[i] == r;
    assert Providers(rows)[i] != Providers(rows)[|rows| - 1];
  }

  lemma {:induction false} SupportersOnce(rows: seq<Ballot>, key: string)
    requires DistinctProviders(rows)
    ensures DistinctProviders(WithKey(rows, key))
    decreases |rows|
  {
    if rows != [] {
      var init, last := rows[..|rows| - 1], rows[|rows| - 1];
      SupportersOnce(init, key);
      var members := WithKey(init, key);
      if last.value.key == key {
        if last.provider in Providers(members) {
          var r := ProviderOf(members, last.provider);
          WithKeyMember(init, key, r);
          LastIsOther(rows, r);
        }
        AppendOnce(Providers(members), last.provider);
        assert Providers(WithKey(rows, key)) == Providers(members) + [last.provider];
      }
    }
  }

  lemma {:induction false} JoinOnce(a: seq<string>, b: seq<string>)
    requires NoDuplicates(a) && NoDuplicates(b) && forall x :: x in a ==> x !in b
    ensures NoDuplicates(a + b)
  {
    forall i, j | 0 <= i < j < |a + b| ensures (a + b)[i] != (a + b)[j] {
      if i < |a| <= j {
        assert a[i] in a && b[j - |a|] in b;
      }
    }
  }

  /** The provider has a row of one of these families. */
  ghost predicate ComesFrom<V>(rows: seq<Row<V>>, p: string, families: seq<string>) {
    exists r :: r in rows && r.provider == p && r.family in families
  }

  /** Each name is listed once and is that of a provider from these families. */
  ghost predicate ListedOnce<V>(names: seq<string>, rows: seq<Row<V>>, families: seq<string>) {
    NoDuplicates(names) && forall p :: p in names ==> ComesFrom(rows, p, families)
  }

  lemma {:induction false} ListMore<V>(rows: seq<Row<V>>, init: seq<string>, last: string, a: seq<string>,
                                       b: seq<string>)
    requires DistinctProviders(rows) && last !in init && ListedOnce(a, rows, init) && ListedOnce(b, rows, [last])
    ensures ListedOnce(a + b, rows, init + [last])
  {
    forall p | p in a ensures p !in b && ComesFrom(rows, p, init + [last]) {
      var r :| r in rows && r.provider == p && r.family in init;
      if p in b {
        var r' :| r' in rows && r'.provider == p && r'.family in [last];
        OneRow(rows, r, r');
      }
    }
    forall p | p in b ensures ComesFrom(rows, p, init + [last]) {
      var r :| r in rows && r.provider == p && r.family in [last];
    }
    JoinOnce(a, b);
  }

  lemma {:induction false} ListNone<V>(rows: seq<Row<V>>, init: seq<string>, last: string, a: seq<string>)
    requires ListedOnce(a, rows, init)
    ensures ListedOnce(a, rows, init + [last])
  {
    forall p | p in a ensures ComesFrom(rows, p, init + [last]) {
      var r :| r in rows && r.provider == p && r.family in init;
    }
  }

  /** The sources that a family adds are its own, each once. */
  lemma HomeSources(rows: seq<Ballot>, family: string)
    requires family in FamilyNames(rows) && DistinctProviders(rows)
    ensures ListedOnce(VoteFor(rows, family).sources, rows, [family])
  {
    InFamilySome(rows, family);
    var members := InFamily(rows, family);
    MembersOnce(rows, family);
    SupportersOnce(members, Winner(Stakes(members)));
    forall p | p in VoteFor(rows, family).sources ensures ComesFrom(rows, p, [family]) {
      var r := ProviderOf(Supporters(members), p);
      WithKeyMember(members, Winner(Stakes(members)), r);
      InFamilyMember(rows, family, r);
    }
  }

  lemma {:induction false} SourcesListed(rows: seq<Ballot>, families: seq<string>, key: string)
    requires AllNamed(families, FamilyNames(rows)) && NoDuplicates(families) && DistinctProviders(rows)
    ensures ListedOnce(AllSources(VotesFor(VotesOf(rows, families), key)), rows, families)
    decreases |families|
  {
    if families != [] {
      var init, last := families[..|families| - 1], families[|families| - 1];
      SourcesListed(rows, init, key);
      assert families == init + [last] && last !in init;
      HomeSources(rows, last);
      SourcesStep(rows, init, last, VotesOf(rows, init), VoteFor(rows, last), key);
    }
  }

  lemma {:induction false} SourcesStep(rows: seq<Ballot>, init: seq<string>, last: string, votes: seq<Vote>, v: Vote,
                                       key: string)
    requires DistinctProviders(rows) && last !in init && ListedOnce(v.sources, rows, [last])
    requires ListedOnce(AllSources(VotesFor(votes, key)), rows, init)
    ensures ListedOnce(AllSources(VotesFor(votes + [v], key)), rows, init + [last])
  {
    var before := AllSources(VotesFor(votes, key));
    AddedSources(votes, v, key);
    if v.value.key == key {
      ListMore(rows, init, last, before, v.sources);
    } else {
      ListNone(rows, init, last, before);
    }
  }

  lemma AddedSources(votes: seq<Vote>, v: Vote, key: string)
    ensures AllSources(VotesFor(votes + [v], key))
         == AllSources(VotesFor(votes, key)) + if v.value.key == key then v.sources else []
  {
    var before := VotesFor(votes, key);
    assert (votes + [v])[..|votes|] == votes;
    if v.value.key == key {
      assert VotesFor(votes + [v], key) == before + [v];
      assert (before + [v])[..|before|] == before;
    } else {
      assert VotesFor(votes + [v], key) == before;
    }
  }

  /** The families and the sources are counted right: each family with a row once, and no source twice. */
  lemma CountsAreExact(rows: seq<Ballot>)
    requires DistinctProviders(rows) && Votes(rows) != []
    ensures var f := FieldOf(Votes(rows));
            f.families == FamilyCount(rows) && NoDuplicates(f.sources) && NoDuplicates(f.conflicting)
  {
    var votes := Votes(rows);
    var key := Winner(VoteStakes(votes));
    FamiliesCounted(rows);
    DistinctOnce(FamilyNames(rows));
    DistinctAreNamed(FamilyNames(rows));
    SourcesListed(rows, Distinct(FamilyNames(rows)), key);
    DistinctOnce(AllConflicts(VotesFor(votes, key)) + AllMembers(VotesAgainst(votes, key)));
  }
}
