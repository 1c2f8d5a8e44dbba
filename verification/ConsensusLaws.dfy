/** What a discrete consensus guarantees: sources and conflicts partition the providers, full agreement
    means no conflict, and a family counts for no more than its heaviest member. */
module ConsensusLaws {
  import opened Collections
  import opened Tally
  import opened Consensus
  import opened Families

  predicate AllHave(rows: seq<Ballot>, key: string) {
    forall i :: 0 <= i < |rows| ==> rows[i].value.key == key
  }

  // ---------- the parts of a family ----------

  lemma {:induction false} WithKeyHas(rows: seq<Ballot>, key: string)
    ensures AllHave(WithKey(rows, key), key)
    decreases |rows|
  {
    if rows != [] {
      WithKeyHas(rows[..|rows| - 1], key);
    }
  }

  lemma {:induction false} WithKeyMember(rows: seq<Ballot>, key: string, r: Ballot)
    ensures r in WithKey(rows, key) <==> r in rows && r.value.key == key
    decreases |rows|
  {
    if rows != [] {
      WithKeyMember(rows[..|rows| - 1], key, r);
      assert rows == rows[..|rows| - 1] + [rows[|rows| - 1]];
    }
  }

  lemma {:induction false} WithKeyAll(rows: seq<Ballot>, key: string)
    requires AllHave(rows, key)
    ensures WithKey(rows, key) == rows
    decreases |rows|
  {
    if rows != [] {
      WithKeyAll(rows[..|rows| - 1], key);
    }
  }

  lemma {:induction false} OthersMember(rows: seq<Ballot>, sources: seq<string>, p: string)
    ensures p in Others(rows, sources) <==> p in Providers(rows) && p !in sources
    decreases |rows|
  {
    if rows != [] {
      var init := rows[..|rows| - 1];
      OthersMember(init, sources, p);
      assert Providers(rows) == Providers(init) + [rows[|rows| - 1].provider];
    }
  }

  // ---------- one vote ----------

  lemma CappedBounds(heaviest: real, share: real)
    requires heaviest > 0.0 && 0.15 <= share <= 1.0
    ensures 0.0 < 0.15 * heaviest <= Times(heaviest, share) <= heaviest
    ensures share == 1.0 ==> Times(heaviest, share) == heaviest
  {
    TimesShare(heaviest, share);
  }

  lemma VoteParts(family: string, rows: seq<Ballot>)
    requires rows != []
    ensures var v, k := VoteOf(family, rows), Winner(Stakes(rows));
            v.value.key == k && v.agreement == Share(Stakes(rows), k)
                && v.weight == Times(MaxWeight(rows), Max(0.15, v.agreement))
  {
    VoteKey(family, rows);
  }

  /** The agreement of a family is full exactly when all members have the same value. */
  lemma VoteAgreement(family: string, rows: seq<Ballot>)
    requires rows != [] && Weighted(rows)
    ensures var v := VoteOf(family, rows);
            0.0 < v.agreement <= 1.0 && (v.agreement == 1.0 <==> AllHave(rows, v.value.key))
  {
    VoteParts(family, rows);
    WinnerShare(Stakes(rows));
  }

  /** A family weighs at most as much as its heaviest member, however many members it has, and as much
      when they agree. */
  lemma VoteIsCapped(family: string, rows: seq<Ballot>)
    requires rows != [] && Weighted(rows)
    ensures var v, heaviest := VoteOf(family, rows), MaxWeight(rows);
            0.0 < 0.15 * heaviest <= v.weight <= heaviest && (v.agreement == 1.0 ==> v.weight == heaviest)
  {
    var v := VoteOf(family, rows);
    VoteAgreement(family, rows);
    VoteParts(family, rows);
    CappedBounds(MaxWeight(rows), Max(0.15, v.agreement));
  }

  /** A vote is for the heaviest key of the family. */
  lemma VoteKey(family: string, rows: seq<Ballot>)
    requires rows != []
    ensures VoteOf(family, rows).value.key == Winner(Stakes(rows))
  {
    WithKeyHas(rows, Winner(Stakes(rows)));
  }

  /** A member of the family is a source when its provider supplied the winning value, and a conflict
      otherwise. */
  lemma VoteSplits(family: string, rows: seq<Ballot>, p: string)
    requires rows != []
    ensures var v := VoteOf(family, rows);
            && (p in v.sources || p in v.conflicts <==> p in Providers(rows))
            && !(p in v.sources && p in v.conflicts)
  {
    var v := VoteOf(family, rows);
    OthersMember(rows, v.sources, p);
    if p in v.sources {
      var r := ProviderOf(Supporters(rows), p);
      WithKeyMember(rows, Winner(Stakes(rows)), r);
    }
  }

  lemma VoteSource(family: string, rows: seq<Ballot>, r: Ballot)
    requires r in rows && (forall r' :: r' in rows && r'.provider == r.provider ==> r' == r)
    ensures r.provider in VoteOf(family, rows).sources <==> r.value.key == VoteOf(family, rows).value.key
  {
    var k := Winner(Stakes(rows));
    VoteKey(family, rows);
    WithKeyMember(rows, k, r);
    if r.provider in VoteOf(family, rows).sources {
      var r' := ProviderOf(Supporters(rows), r.provider);
      WithKeyMember(rows, k, r');
    }
  }

  // ---------- all votes, seen from one provider ----------

  predicate Belongs(v: Vote, p: string) {
    p in v.sources || p in v.conflicts
  }

  /** A provider belongs to the vote of its own family only. */
  lemma BelongsHome(rows: seq<Ballot>, family: string, r: Ballot)
    requires family in FamilyNames(rows) && DistinctProviders(rows) && r in rows
    ensures Belongs(VoteFor(rows, family), r.provider) <==> family == r.family
  {
    InFamilySome(rows, family);
    var members := InFamily(rows, family);
    VoteSplits(family, members, r.provider);
    InFamilyMember(rows, family, r);
    if r.provider in Providers(members) {
      var r' := ProviderOf(members, r.provider);
      InFamilyMember(rows, family, r');
      OneRow(rows, r, r');
    }
  }

  lemma BelongsNowhere(rows: seq<Ballot>, family: string, p: string)
    requires family in FamilyNames(rows) && p !in Providers(rows)
    ensures !Belongs(VoteFor(rows, family), p)
  {
    InFamilySome(rows, family);
    var members := InFamily(rows, family);
    VoteSplits(family, members, p);
    if p in Providers(members) {
      var r := ProviderOf(members, p);
      InFamilyMember(rows, family, r);
    }
  }

  /** The vote of a row's family. */
  function HomeVote(rows: seq<Ballot>, r: Ballot): Vote
    requires r in rows
  {
    RowFamily(rows, r);
    VoteFor(rows, r.family)
  }

  /** Where a provider turns up among votes, given whether they include the vote of its family. */
  predicate Placed(votes: seq<Vote>, key: string, p: string, there: bool, home: Vote) {
    && (p in AllSources(VotesFor(votes, key)) <==> there && home.value.key == key && p in home.sources)
    && (p in AllConflicts(VotesFor(votes, key)) <==> there && home.value.key == key && p in home.conflicts)
    && (p in AllMembers(VotesAgainst(votes, key)) <==> there && home.value.key != key)
  }

  lemma PlacedStep(votes: seq<Vote>, v: Vote, key: string, p: string, there: bool, here: bool, home: Vote)
    requires Placed(votes, key, p, there, home) && (Belongs(v, p) <==> here) && (here ==> v == home)
    ensures Placed(votes + [v], key, p, there || here, home)
  {
    FlatSnoc(votes, v, key, p);
  }

  lemma {:induction false} ProviderPlaces(rows: seq<Ballot>, families: seq<string>, key: string, r: Ballot, home: Vote)
    requires AllNamed(families, FamilyNames(rows)) && DistinctProviders(rows) && r in rows && home == HomeVote(rows, r)
    ensures Placed(VotesOf(rows, families), key, r.provider, r.family in families, home)
    decreases |families|
  {
    if families != [] {
      var init, last := families[..|families| - 1], families[|families| - 1];
      ProviderPlaces(rows, init, key, r, home);
      HomeOrAway(rows, last, r, home);
      PlacedStep(VotesOf(rows, init), VoteFor(rows, last), key, r.provider, r.family in init, r.family == last, home);
      InSnoc(families, r.family);
    }
  }

  lemma HomeOrAway(rows: seq<Ballot>, family: string, r: Ballot, home: Vote)
    requires family in FamilyNames(rows) && DistinctProviders(rows) && r in rows && home == HomeVote(rows, r)
    ensures Belongs(VoteFor(rows, family), r.provider) <==> r.family == family
    ensures r.family == family ==> VoteFor(rows, family) == home
  {
    BelongsHome(rows, family, r);
  }

  lemma FlatSnoc(votes: seq<Vote>, v: Vote, key: string, p: string)
    ensures p in AllSources(VotesFor(votes + [v], key)) <==>
              p in AllSources(VotesFor(votes, key)) || (v.value.key == key && p in v.sources)
    ensures p in AllConflicts(VotesFor(votes + [v], key)) <==>
              p in AllConflicts(VotesFor(votes, key)) || (v.value.key == key && p in v.conflicts)
    ensures p in AllMembers(VotesAgainst(votes + [v], key)) <==>
              p in AllMembers(VotesAgainst(votes, key)) || (v.value.key != key && Belongs(v, p))
  {
    assert (votes + [v])[..|votes|] == votes;
    if v.value.key == key {
      assert VotesFor(votes + [v], key) == VotesFor(votes, key) + [v];
      assert VotesAgainst(votes + [v], key) == VotesAgainst(votes, key);
    } else {
      assert VotesFor(votes + [v], key) == VotesFor(votes, key);
      assert VotesAgainst(votes + [v], key) == VotesAgainst(votes, key) + [v];
    }
  }

  lemma {:induction false} StrangerNowhere(rows: seq<Ballot>, families: seq<string>, key: string, p: string)
    requires AllNamed(families, FamilyNames(rows)) && p !in Providers(rows)
    ensures var votes := VotesOf(rows, families);
            && p !in AllSources(VotesFor(votes, key)) && p !in AllConflicts(VotesFor(votes, key))
            && p !in AllMembers(VotesAgainst(votes, key))
    decreases |families|
  {
    if families != [] {
      var init, last := families[..|families| - 1], families[|families| - 1];
      StrangerNowhere(rows, init, key, p);
      BelongsNowhere(rows, last, p);
      FlatSnoc(VotesOf(rows, init), VoteFor(rows, last), key, p);
    }
  }

  // ---------- the partition ----------

  /** Every row's provider turns up in the field where its family's vote puts it. */
  lemma FieldPlaces(rows: seq<Ballot>, r: Ballot)
    requires DistinctProviders(rows) && r in rows && Votes(rows) != []
    ensures var f, home := FieldOf(Votes(rows)), HomeVote(rows, r);
            && (r.provider in f.sources <==> home.value.key == f.value.key && r.provider in home.sources)
            && (r.provider in f.conflicting <==> home.value.key != f.value.key || r.provider in home.conflicts)
  {
    var votes, home := Votes(rows), HomeVote(rows, r);
    var key := Winner(VoteStakes(votes));
    FieldKey(votes);
    DistinctAreNamed(FamilyNames(rows));
    RowFamily(rows, r);
    ProviderPlaces(rows, Distinct(FamilyNames(rows)), key, r, home);
    ConflictingMember(votes, r.provider);
    BelongsHome(rows, r.family, r);
  }

  lemma {:induction false} VotesForHave(votes: seq<Vote>, key: string)
    ensures forall i :: 0 <= i < |VotesFor(votes, key)| ==> VotesFor(votes, key)[i].value.key == key
    decreases |votes|
  {
    if votes != [] {
      VotesForHave(votes[..|votes| - 1], key);
    }
  }

  lemma FieldKey(votes: seq<Vote>)
    requires votes != []
    ensures FieldOf(votes).value.key == Winner(VoteStakes(votes))
  {
    var key := Winner(VoteStakes(votes));
    WinnerPresent(VoteStakes(votes));
    VotesForSome(votes, key);
    VotesForHave(votes, key);
    assert FieldOf(votes).value == VotesFor(votes, key)[0].value;
  }

  lemma ConflictingMember(votes: seq<Vote>, p: string)
    requires votes != []
    ensures var key := Winner(VoteStakes(votes));
            p in FieldOf(votes).conflicting <==>
              p in AllConflicts(VotesFor(votes, key)) || p in AllMembers(VotesAgainst(votes, key))
  {
    var key := Winner(VoteStakes(votes));
    DistinctMembers(AllConflicts(VotesFor(votes, key)) + AllMembers(VotesAgainst(votes, key)), p);
  }

  /** A provider is a source exactly when it agrees with the consensus and so does its family; every
      other provider is in conflict. */
  lemma SourceIff(rows: seq<Ballot>, r: Ballot)
    requires DistinctProviders(rows) && r in rows && Votes(rows) != []
    ensures var f, home := FieldOf(Votes(rows)), HomeVote(rows, r);
            && (r.provider in f.sources <==> r.value.key == f.value.key && home.value.key == f.value.key)
            && (r.provider in f.conflicting <==> r.provider !in f.sources)
  {
    var members := InFamily(rows, r.family);
    FieldPlaces(rows, r);
    InFamilyMember(rows, r.family, r);
    BelongsHome(rows, r.family, r);
    RowFamily(rows, r);
    VoteSplits(r.family, members, r.provider);
    forall r' | r' in members && r'.provider == r.provider ensures r' == r {
      InFamilyMember(rows, r.family, r');
      OneRow(rows, r, r');
    }
    VoteSource(r.family, members, r);
  }

  lemma OnlyProviders(rows: seq<Ballot>, p: string)
    requires Votes(rows) != [] && p !in Providers(rows)
    ensures p !in FieldOf(Votes(rows)).sources && p !in FieldOf(Votes(rows)).conflicting
  {
    DistinctAreNamed(FamilyNames(rows));
    StrangerNowhere(rows, Distinct(FamilyNames(rows)), Winner(VoteStakes(Votes(rows))), p);
    ConflictingMember(Votes(rows), p);
  }

  /** Main result.  The sources of a field and the providers in conflict with it are disjoint, and
      together are exactly the providers that have a value for the field. */
  lemma ConflictPartition(rows: seq<Ballot>, p: string)
    requires DistinctProviders(rows) && Votes(rows) != []
    ensures var f := FieldOf(Votes(rows));
            && (p in Providers(rows) <==> p in f.sources || p in f.conflicting)
            && !(p in f.sources && p in f.conflicting)
  {
    if p in Providers(rows) {
      var r := ProviderOf(rows, p);
      SourceIff(rows, r);
    } else {
      OnlyProviders(rows, p);
    }
  }

  // ---------- agreement ----------

  /** Votes of positive weight and of agreement in (0, 1]. */
  predicate Proper(votes: seq<Vote>) {
    forall i :: 0 <= i < |votes| ==> votes[i].weight > 0.0 && 0.0 < votes[i].agreement <= 1.0
  }

  predicate FullAgreement(votes: seq<Vote>) {
    forall i :: 0 <= i < |votes| ==> votes[i].agreement == 1.0
  }

  /** The agreed part of votes is at most their weight, and all of it only if all agree fully. */
  lemma AgreedBounds(votes: seq<Vote>)
    requires Proper(votes)
    ensures 0.0 <= Total(AgreedStakes(votes)) <= Total(VoteStakes(votes))
    ensures votes != [] ==> Total(AgreedStakes(votes)) > 0.0
    ensures Total(AgreedStakes(votes)) == Total(VoteStakes(votes)) <==> FullAgreement(votes)
  {
    var s, t := AgreedStakes(votes), VoteStakes(votes);
    forall i | 0 <= i < |votes|
      ensures 0.0 < s[i].weight <= t[i].weight && (s[i].weight == t[i].weight <==> votes[i].agreement == 1.0)
    {
      TimesShare(votes[i].weight, votes[i].agreement);
    }
    TotalCompare(s, t);
    TotalPositive(s);
  }

  lemma {:induction false} VotesForWeight(votes: seq<Vote>, key: string)
    requires Proper(votes)
    ensures Proper(VotesFor(votes, key)) && Total(VoteStakes(VotesFor(votes, key))) == WeightOf(VoteStakes(votes), key)
    decreases |votes|
  {
    if votes != [] {
      var init, last := votes[..|votes| - 1], votes[|votes| - 1];
      VotesForWeight(init, key);
      assert VoteStakes(votes)[..|init|] == VoteStakes(init);
      if last.value.key == key {
        var f := VotesFor(votes, key);
        assert f == VotesFor(init, key) + [last];
        assert VoteStakes(f)[..|f| - 1] == VoteStakes(VotesFor(init, key));
      } else {
        assert VotesFor(votes, key) == VotesFor(init, key);
      }
    }
  }

  /** The agreement inside the winning families lies in (0, 1], and is 1 exactly when each agrees fully. */
  lemma InternalBounds(votes: seq<Vote>, key: string)
    requires Proper(votes) && key in KeysOf(VoteStakes(votes))
    ensures var winners := VotesFor(votes, key);
            var internal := Internal(winners, WeightOf(VoteStakes(votes), key));
            0.0 < internal <= 1.0 && (internal == 1.0 <==> FullAgreement(winners))
  {
    var winners := VotesFor(votes, key);
    VotesForSome(votes, key);
    VotesForWeight(votes, key);
    AgreedBounds(winners);
    Ratio(Total(AgreedStakes(winners)), WeightOf(VoteStakes(votes), key));
  }

  /** Votes for one key, all in full agreement. */
  predicate OneVoice(votes: seq<Vote>, key: string) {
    forall i :: 0 <= i < |votes| ==> votes[i].value.key == key && votes[i].agreement == 1.0
  }

  lemma {:induction false} VotesForAll(votes: seq<Vote>, key: string)
    requires AllKeys(VoteStakes(votes), key)
    ensures VotesFor(votes, key) == votes
    decreases |votes|
  {
    if votes != [] {
      var init, last := votes[..|votes| - 1], votes[|votes| - 1];
      assert VoteStakes(votes)[..|init|] == VoteStakes(init);
      assert VoteStakes(votes)[|init|] == Stake(last.value.key, last.weight);
      VotesForAll(init, key);
      assert VotesFor(votes, key) == init + [last];
    }
  }

  lemma FieldParts(votes: seq<Vote>)
    requires votes != []
    ensures var f, s, key := FieldOf(votes), VoteStakes(votes), Winner(VoteStakes(votes));
            f.value.key == key && f.agreement == Times(Share(s, key), Internal(VotesFor(votes, key), WeightOf(s, key)))
  {
    FieldKey(votes);
  }

  lemma BothShares(votes: seq<Vote>) returns (outer: real, internal: real)
    requires votes != [] && Proper(votes)
    ensures FieldOf(votes).agreement == Times(outer, internal) && 0.0 < outer <= 1.0 && 0.0 < internal <= 1.0
    ensures outer == 1.0 && internal == 1.0 <==> OneVoice(votes, FieldOf(votes).value.key)
  {
    var s, key := VoteStakes(votes), Winner(VoteStakes(votes));
    outer, internal := Share(s, key), Internal(VotesFor(votes, key), WeightOf(s, key));
    FieldParts(votes);
    WinnerShare(s);
    WinnerPresent(s);
    InternalBounds(votes, key);
    OneVoiceIff(votes, key);
  }

  lemma VotesAgreement(votes: seq<Vote>)
    requires votes != [] && Proper(votes)
    ensures var f := FieldOf(votes);
            0.0 < f.agreement <= 1.0 && (f.agreement == 1.0 <==> OneVoice(votes, f.value.key))
  {
    var outer, internal := BothShares(votes);
    TimesShare(outer, internal);
  }

  lemma OneVoiceIff(votes: seq<Vote>, key: string)
    ensures OneVoice(votes, key) <==> AllKeys(VoteStakes(votes), key) && FullAgreement(VotesFor(votes, key))
  {
    if AllKeys(VoteStakes(votes), key) {
      VotesForAll(votes, key);
      assert forall i :: 0 <= i < |votes| ==> VoteStakes(votes)[i].key == key;
    }
    if OneVoice(votes, key) {
      assert AllKeys(VoteStakes(votes), key);
    }
  }

  lemma {:induction false} VotesAt(rows: seq<Ballot>, families: seq<string>, i: nat)
    requires AllNamed(families, FamilyNames(rows)) && i < |families|
    ensures VotesOf(rows, families)[i] == VoteFor(rows, families[i])
    decreases |families|
  {
    if i < |families| - 1 {
      VotesAt(rows, families[..|families| - 1], i);
    }
  }

  /** Each vote is that of a family. */
  lemma VoteOrigin(rows: seq<Ballot>, i: nat) returns (family: string)
    requires i < |Votes(rows)|
    ensures family in FamilyNames(rows) && Votes(rows)[i] == VoteFor(rows, family)
  {
    DistinctAreNamed(FamilyNames(rows));
    family := Distinct(FamilyNames(rows))[i];
    VotesAt(rows, Distinct(FamilyNames(rows)), i);
  }

  /** Each row's family votes. */
  lemma HomePlace(rows: seq<Ballot>, r: Ballot) returns (i: nat)
    requires r in rows
    ensures i < |Votes(rows)| && Votes(rows)[i] == HomeVote(rows, r)
  {
    DistinctAreNamed(FamilyNames(rows));
    RowFamily(rows, r);
    var families := Distinct(FamilyNames(rows));
    i :| 0 <= i < |families| && families[i] == r.family;
    VotesAt(rows, families, i);
  }

  lemma FamilyVote(rows: seq<Ballot>, family: string)
    requires Weighted(rows) && family in FamilyNames(rows)
    ensures var v := VoteFor(rows, family);
            && v.weight > 0.0 && 0.0 < v.agreement <= 1.0
            && (v.agreement == 1.0 <==> AllHave(InFamily(rows, family), v.value.key))
  {
    InFamilySome(rows, family);
    InFamilyWeighted(rows, family);
    VoteAgreement(family, InFamily(rows, family));
    VoteIsCapped(family, InFamily(rows, family));
  }

  lemma VotesProper(rows: seq<Ballot>)
    requires Weighted(rows)
    ensures Proper(Votes(rows))
  {
    var votes := Votes(rows);
    forall i | 0 <= i < |votes| ensures votes[i].weight > 0.0 && 0.0 < votes[i].agreement <= 1.0 {
      var family := VoteOrigin(rows, i);
      FamilyVote(rows, family);
    }
  }

  lemma OneKeyOneVoice(rows: seq<Ballot>, key: string)
    requires Weighted(rows)
    ensures OneVoice(Votes(rows), key) <==> AllHave(rows, key)
  {
    var votes := Votes(rows);
    if OneVoice(votes, key) {
      forall j | 0 <= j < |rows| ensures rows[j].value.key == key {
        var i := HomePlace(rows, rows[j]);
        RowFamily(rows, rows[j]);
        FamilyVote(rows, rows[j].family);
        InFamilyMember(rows, rows[j].family, rows[j]);
      }
    }
    if AllHave(rows, key) {
      forall i | 0 <= i < |votes| ensures votes[i].value.key == key && votes[i].agreement == 1.0 {
        var family := VoteOrigin(rows, i);
        UnanimousVote(rows, family, key);
      }
    }
  }

  lemma {:induction false} InFamilyHas(rows: seq<Ballot>, family: string, key: string)
    requires AllHave(rows, key)
    ensures AllHave(InFamily(rows, family), key)
    decreases |rows|
  {
    if rows != [] {
      InFamilyHas(rows[..|rows| - 1], family, key);
    }
  }

  lemma UnanimousVote(rows: seq<Ballot>, family: string, key: string)
    requires Weighted(rows) && family in FamilyNames(rows) && AllHave(rows, key)
    ensures VoteFor(rows, family).value.key == key && VoteFor(rows, family).agreement == 1.0
  {
    var members := InFamily(rows, family);
    InFamilySome(rows, family);
    InFamilyHas(rows, family, key);
    FamilyVote(rows, family);
    UnanimousKey(family, members, key);
  }

  lemma UnanimousKey(family: string, members: seq<Ballot>, key: string)
    requires members != [] && AllHave(members, key)
    ensures VoteOf(family, members).value.key == key
  {
    var s := Stakes(members);
    VoteKey(family, members);
    WinnerPresent(s);
    var i :| 0 <= i < |s| && KeysOf(s)[i] == Winner(s);
    assert members[i].value.key == key;
  }

  /** Main result.  The agreement on a field lies in (0, 1], and is 1 exactly when all the values given
      are the same: no disagreement inside a family or between families goes unnoticed. */
  lemma FieldAgreement(rows: seq<Ballot>)
    requires Weighted(rows) && Votes(rows) != []
    ensures var f := FieldOf(Votes(rows));
            0.0 < f.agreement <= 1.0 && (f.agreement == 1.0 <==> AllHave(rows, f.value.key))
  {
    VotesProper(rows);
    VotesAgreement(Votes(rows));
    OneKeyOneVoice(rows, FieldOf(Votes(rows)).value.key);
  }

  /** Main result.  Full agreement and the absence of conflict are the same thing. */
  lemma NoConflictIff(rows: seq<Ballot>)
    requires Weighted(rows) && DistinctProviders(rows) && Votes(rows) != []
    ensures var f := FieldOf(Votes(rows)); f.agreement == 1.0 <==> f.conflicting == []
  {
    var f := FieldOf(Votes(rows));
    FieldAgreement(rows);
    if f.conflicting == [] {
      forall i | 0 <= i < |rows| ensures rows[i].value.key == f.value.key {
        SourceIff(rows, rows[i]);
      }
    }
    if AllHave(rows, f.value.key) && f.conflicting != [] {
      var p := f.conflicting[0];
      ConflictPartition(rows, p);
      var r := ProviderOf(rows, p);
      SourceIff(rows, r);
      RowFamily(rows, r);
      UnanimousVote(rows, r.family, f.value.key);
      assert false;
    }
  }

  /** No value outweighs the consensus. */
  lemma ConsensusIsHeaviest(rows: seq<Ballot>, i: nat)
    requires i < |Votes(rows)|
    ensures var votes := Votes(rows);
            WeightOf(VoteStakes(votes), votes[i].value.key) <= WeightOf(VoteStakes(votes), FieldOf(votes).value.key)
  {
    var votes := Votes(rows);
    FieldKey(votes);
    assert KeysOf(VoteStakes(votes))[i] == votes[i].value.key;
    WinnerIsHeaviest(VoteStakes(votes), votes[i].value.key);
  }

  // ---------- the family cap ----------

  /** Votes that count the same: they differ at most in whom they name. */
  predicate Alike(a: seq<Vote>, b: seq<Vote>) {
    && |a| == |b|
    && forall i :: 0 <= i < |a| ==>
        a[i].value == b[i].value && a[i].weight == b[i].weight && a[i].agreement == b[i].agreement
  }

  lemma {:induction false} AlikeFor(a: seq<Vote>, b: seq<Vote>, key: string)
    requires Alike(a, b)
    ensures Alike(VotesFor(a, key), VotesFor(b, key))
    decreases |a|
  {
    if a != [] {
      AlikeFor(a[..|a| - 1], b[..|b| - 1], key);
    }
  }

  lemma AlikeFields(a: seq<Vote>, b: seq<Vote>)
    requires Alike(a, b) && a != []
    ensures FieldOf(a).value == FieldOf(b).value && FieldOf(a).agreement == FieldOf(b).agreement
  {
    assert VoteStakes(a) == VoteStakes(b);
    var key := Winner(VoteStakes(a));
    var c, d := VotesFor(a, key), VotesFor(b, key);
    AlikeFor(a, b, key);
    AlikeAgreed(c, d);
    FieldParts(a);
    FieldParts(b);
    FieldFirst(a);
    FieldFirst(b);
  }

  lemma AlikeAgreed(a: seq<Vote>, b: seq<Vote>)
    requires Alike(a, b)
    ensures AgreedStakes(a) == AgreedStakes(b)
  {
  }

  lemma FieldFirst(votes: seq<Vote>)
    requires votes != []
    ensures var key := Winner(VoteStakes(votes));
            VotesFor(votes, key) != [] && FieldOf(votes).value == VotesFor(votes, key)[0].value
  {
    WinnerPresent(VoteStakes(votes));
    VotesForSome(votes, Winner(VoteStakes(votes)));
  }

  /** The vote of a family of one mind: its first value, at the weight of its heaviest member. */
  lemma OneMind(family: string, rows: seq<Ballot>, key: string)
    requires rows != [] && Weighted(rows) && AllHave(rows, key)
    ensures var v := VoteOf(family, rows); v.value == rows[0].value && v.weight == MaxWeight(rows) && v.agreement == 1.0
  {
    UnanimousKey(family, rows, key);
    VoteKey(family, rows);
    VoteAgreement(family, rows);
    VoteIsCapped(family, rows);
    WithKeyAll(rows, key);
  }

  lemma AddedMember(family: string, a: seq<Ballot>, r: Ballot, b: seq<Ballot>)
    requires a != [] && Weighted(a + [r] + b) && AllHave(a + b, r.value.key) && r.weight <= MaxWeight(a + b)
    ensures Alike([VoteOf(family, a + [r] + b)], [VoteOf(family, a + b)])
  {
    var all := a + [r] + b;
    forall i | 0 <= i < |a + b| ensures (a + b)[i].weight > 0.0 {
      assert (a + b)[i] == all[if i < |a| then i else i + 1];
    }
    forall i | 0 <= i < |all| ensures all[i].value.key == r.value.key {
      assert all[i] == if i < |a| then (a + b)[i] else if i == |a| then r else (a + b)[i - 1];
    }
    MaxWeightInsert(a, r, b);
    OneMind(family, all, r.value.key);
    OneMind(family, a + b, r.value.key);
  }

  /** A row that repeats what its whole family says, comes after a member of it, and is no heavier than
      its heaviest member. */
  predicate AddsNothing(a: seq<Ballot>, r: Ballot, b: seq<Ballot>) {
    var members := InFamily(a + b, r.family);
    && r.family in FamilyNames(a) && AllHave(members, r.value.key)
    && members != [] && r.weight <= MaxWeight(members)
  }

  lemma InFamilyInsert(a: seq<Ballot>, r: Ballot, b: seq<Ballot>, family: string)
    ensures InFamily(a + b, family) == InFamily(a, family) + InFamily(b, family)
    ensures InFamily(a + [r] + b, family)
         == InFamily(a, family) + (if r.family == family then [r] else []) + InFamily(b, family)
  {
    InFamilyConcat(a, b, family);
    InFamilyConcat(a + [r], b, family);
    assert (a + [r])[..|a|] == a;
  }

  lemma AddedVote(a: seq<Ballot>, r: Ballot, b: seq<Ballot>, family: string)
    requires Weighted(a + [r] + b) && AddsNothing(a, r, b)
    requires family in FamilyNames(a + [r] + b) && family in FamilyNames(a + b)
    ensures Alike([VoteFor(a + [r] + b, family)], [VoteFor(a + b, family)])
  {
    InFamilyInsert(a, r, b, family);
    if family == r.family {
      InFamilySome(a, family);
      InFamilyWeighted(a + [r] + b, family);
      AddedMember(family, InFamily(a, family), r, InFamily(b, family));
    } else {
      assert InFamily(a, family) + [] + InFamily(b, family) == InFamily(a, family) + InFamily(b, family);
    }
  }

  lemma AddedNames(a: seq<Ballot>, r: Ballot, b: seq<Ballot>)
    requires r.family in FamilyNames(a)
    ensures Distinct(FamilyNames(a + [r] + b)) == Distinct(FamilyNames(a + b))
  {
    assert FamilyNames(a + [r] + b) == FamilyNames(a) + [r.family] + FamilyNames(b);
    assert FamilyNames(a + b) == FamilyNames(a) + FamilyNames(b);
    DistinctRepeat(FamilyNames(a), r.family, FamilyNames(b));
  }

  lemma AddedVotes(a: seq<Ballot>, r: Ballot, b: seq<Ballot>)
    requires Weighted(a + [r] + b) && AddsNothing(a, r, b)
    ensures Alike(Votes(a + [r] + b), Votes(a + b))
  {
    var rows', rows := a + [r] + b, a + b;
    var families := Distinct(FamilyNames(rows));
    AddedNames(a, r, b);
    DistinctAreNamed(FamilyNames(rows'));
    DistinctAreNamed(FamilyNames(rows));
    forall i | 0 <= i < |families| ensures Alike([Votes(rows')[i]], [Votes(rows)[i]]) {
      VotesAt(rows', families, i);
      VotesAt(rows, families, i);
      AddedVote(a, r, b, families[i]);
    }
    forall i | 0 <= i < |families|
      ensures var v, w := Votes(rows')[i], Votes(rows)[i];
              v.value == w.value && v.weight == w.weight && v.agreement == w.agreement
    {
      assert Alike([Votes(rows')[i]], [Votes(rows)[i]]);
      assert [Votes(rows')[i]][0] == Votes(rows')[i] && [Votes(rows)[i]][0] == Votes(rows)[i];
    }
  }

  /** Main result.  When a family gains a member that says what it already says and is no heavier than its
      heaviest, the value, the agreement and the number of families stay as they were: wrappers of one
      upstream do not add up. */
  lemma FamilyCountsOnce(a: seq<Ballot>, r: Ballot, b: seq<Ballot>)
    requires Weighted(a + [r] + b) && AddsNothing(a, r, b) && Votes(a + b) != []
    ensures Votes(a + [r] + b) != []
    ensures var f', f := FieldOf(Votes(a + [r] + b)), FieldOf(Votes(a + b));
            f'.value == f.value && f'.agreement == f.agreement && f'.families == f.families
  {
    AddedVotes(a, r, b);
    AlikeFields(Votes(a + [r] + b), Votes(a + b));
  }

  // ---------- from observations to the field ----------

  /** There is a consensus exactly when some provider has a value. */
  lemma DiscreteIff(obs: seq<Observation<Value>>)
    ensures Discrete(obs).Some? <==> Rows(obs) != []
  {
    var rows := Rows(obs);
    if rows != [] {
      var i := HomePlace(rows, rows[0]);
    }
  }

  /** The same for what the providers were observed to say. */
  lemma DiscreteLaws(obs: seq<Observation<Value>>, p: string)
    requires DistinctObservers(obs) && (forall i :: 0 <= i < |obs| ==> obs[i].weight > 0.0) && Rows(obs) != []
    ensures Discrete(obs).Some?
    ensures var f := Discrete(obs).value;
            && 0.0 < f.agreement <= 1.0 && (f.agreement == 1.0 <==> f.conflicting == [])
            && (p in Providers(Rows(obs)) <==> p in f.sources || p in f.conflicting)
            && !(p in f.sources && p in f.conflicting)
  {
    RowsProper(obs);
    DiscreteIff(obs);
    FieldAgreement(Rows(obs));
    NoConflictIff(Rows(obs));
    ConflictPartition(Rows(obs), p);
  }
}
