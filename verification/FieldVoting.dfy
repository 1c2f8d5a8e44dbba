/** The loops of the discrete vote (src/core/consensus.ts): maps filled row by row, buckets sorted by
    weight.  They compute what `Consensus` defines. */
module FieldVoting {
  import opened Collections
  import opened Sorting
  import opened Tally
  import opened Consensus
  import opened Families

  datatype Bucket<T> = Bucket(value: Value, weight: real, members: seq<T>)

  // ---------- rows into families ----------

  method GroupByFamily(obs: seq<Observation<Value>>) returns (m: Dict<string, seq<Ballot>>)
    ensures FamiliesOf(m, Rows(obs))
  {
    m := [];
    for i := 0 to |obs|
      invariant FamiliesOf(m, Rows(obs[..i]))
    {
      var o := obs[i];
      assert obs[..i + 1] == obs[..i] + [o];
      RowsSnoc(obs[..i], o);
      if o.value.Some? {
        m := AddToFamily(m, Row(o.provider, o.family, o.value.value, o.weight), Rows(obs[..i]));
      }
    }
    assert obs[..|obs|] == obs;
  }

  // ---------- rows into buckets ----------

  function FirstValue(rows: seq<Ballot>): Value {
    if rows == [] then Value("", "") else rows[0].value
  }

  function BucketOf(rows: seq<Ballot>, key: string): Bucket<string> {
    Bucket(FirstValue(WithKey(rows, key)), WeightOf(Stakes(rows), key), Providers(WithKey(rows, key)))
  }

  predicate BucketsOf(m: Dict<string, Bucket<string>>, rows: seq<Ballot>) {
    && Keys(m) == Distinct(KeysOf(Stakes(rows)))
    && forall j :: 0 <= j < |m| ==> m[j].1 == BucketOf(rows, m[j].0)
  }

  lemma BucketSnoc(rows: seq<Ballot>, r: Ballot, key: string)
    ensures var b, b' := BucketOf(rows, key), BucketOf(rows + [r], key);
            if r.value.key == key then
              b' == Bucket(if WithKey(rows, key) == [] then r.value else b.value,
                           b.weight + r.weight, b.members + [r.provider])
            else b' == b
  {
    assert (rows + [r])[..|rows|] == rows;
    assert Stakes(rows + [r])[..|rows|] == Stakes(rows);
    if r.value.key == key {
      assert WithKey(rows + [r], key) == WithKey(rows, key) + [r];
    } else {
      assert WithKey(rows + [r], key) == WithKey(rows, key);
    }
  }

  method AddToBucket(m: Dict<string, Bucket<string>>, r: Ballot, ghost rows: seq<Ballot>)
    returns (m': Dict<string, Bucket<string>>)
    requires BucketsOf(m, rows)
    ensures BucketsOf(m', rows + [r])
  {
    var k := r.value.key;
    var found := Get(m, k);
    var b := if found.Some? then found.value else Bucket(r.value, 0.0, []);
    var b' := Bucket(b.value, b.weight + r.weight, b.members + [r.provider]);
    m' := Put(m, k, b');
    var names := KeysOf(Stakes(rows));
    KeysUnique(names, m);
    PutKeys(names, m, k, b');
    assert KeysOf(Stakes(rows + [r])) == names + [k];
    assert b' == BucketOf(rows + [r], k) by {
      HasIff(m, k);
      DistinctMembers(names, k);
      WithKeySome(rows, k);
      BucketSnoc(rows, r, k);
      NoWeight(Stakes(rows), k);
    }
    forall j | 0 <= j < |m'| ensures m'[j].1 == BucketOf(rows + [r], m'[j].0) {
      PutPlaces(m, k, b', j);
      BucketSnoc(rows, r, m'[j].0);
    }
  }

  lemma {:induction false} NoWeight(s: seq<Stake>, key: string)
    ensures key !in KeysOf(s) ==> WeightOf(s, key) == 0.0
    decreases |s|
  {
    if s != [] {
      NoWeight(s[..|s| - 1], key);
      assert KeysOf(s)[..|s| - 1] == KeysOf(s[..|s| - 1]);
      InSnoc(KeysOf(s), key);
    }
  }

  method FillBuckets(rows: seq<Ballot>) returns (m: Dict<string, Bucket<string>>)
    ensures BucketsOf(m, rows)
  {
    m := [];
    for i := 0 to |rows|
      invariant BucketsOf(m, rows[..i])
    {
      assert rows[..i + 1] == rows[..i] + [rows[i]];
      m := AddToBucket(m, rows[i], rows[..i]);
    }
    assert rows[..|rows|] == rows;
  }

  // ---------- the first bucket after sorting ----------

  /** Sorts the buckets by descending weight and takes the first. */
  method Top<T>(m: Dict<string, Bucket<T>>, ghost s: seq<Stake>) returns (top: Bucket<T>)
    requires s != [] && Keys(m) == Distinct(KeysOf(s))
    requires forall j :: 0 <= j < |m| ==> m[j].1.weight == WeightOf(s, m[j].0)
    ensures (Winner(s), top) in m
  {
    var ranks: seq<Keyed<Bucket<T>>> := [];
    for i := 0 to |m|
      invariant |ranks| == i && forall j :: 0 <= j < i ==> ranks[j] == Keyed(-m[j].1.weight, m[j].1)
    {
      ranks := ranks + [Keyed(-m[i].1.weight, m[i].1)];
    }
    ghost var j := HeaviestPlace(s, Keys(m));
    forall i | 0 <= i < |m|
      ensures ranks[j].rank <= ranks[i].rank && (i < j ==> ranks[j].rank < ranks[i].rank)
    {
      assert Keys(m)[i] == m[i].0 && Keys(m)[j] == m[j].0;
    }
    SortHead(ranks, j);
    top := Sort(ranks)[0].item;
    assert m[j] == (Winner(s), top);
  }

  // ---------- one family ----------

  /** The sum and the largest of the weights. */
  method Weigh(rows: seq<Ballot>) returns (total: real, heaviest: real)
    requires rows != []
    ensures total == Total(Stakes(rows)) && heaviest == MaxWeight(rows)
  {
    ghost var s := Stakes(rows);
    TotalNext(s, 0);
    assert s[..0] == [];
    total, heaviest := rows[0].weight, rows[0].weight;
    assert MaxWeight(rows[..1]) == rows[0].weight;
    for i := 1 to |rows|
      invariant total == Total(s[..i]) && heaviest == MaxWeight(rows[..i])
    {
      TotalNext(s, i);
      assert rows[..i + 1][..i] == rows[..i];
      total := total + rows[i].weight;
      heaviest := Max(heaviest, rows[i].weight);
    }
    assert s[..|rows|] == s && rows[..|rows|] == rows;
  }

  /** The providers that are not among the sources. */
  method Dissenters(rows: seq<Ballot>, sources: seq<string>) returns (others: seq<string>)
    ensures others == Others(rows, sources)
  {
    others := [];
    for i := 0 to |rows|
      invariant others == Others(rows[..i], sources)
    {
      assert rows[..i + 1][..i] == rows[..i];
      if rows[i].provider !in sources {
        others := others + [rows[i].provider];
      }
    }
    assert rows[..|rows|] == rows;
  }

  /** The vote of one family. */
  method FamilyBallot(family: string, rows: seq<Ballot>) returns (v: Vote)
    requires rows != []
    ensures v == VoteOf(family, rows)
  {
    var buckets := FillBuckets(rows);
    ghost var s := Stakes(rows);
    var win := Top(buckets, s);
    ghost var j :| 0 <= j < |buckets| && buckets[j] == (Winner(s), win);
    var total, heaviest := Weigh(rows);
    var agreement := if total != 0.0 then win.weight / total else 0.0;
    var others := Dissenters(rows, win.members);
    v := Vote(family, win.value, Times(heaviest, Max(0.15, agreement)), agreement, win.members, others);
  }

  lemma VotesNext(rows: seq<Ballot>, families: seq<string>, i: nat)
    requires AllNamed(families, FamilyNames(rows)) && i < |families|
    ensures AllNamed(families[..i], FamilyNames(rows)) && AllNamed(families[..i + 1], FamilyNames(rows))
    ensures VotesOf(rows, families[..i + 1]) == VotesOf(rows, families[..i]) + [VoteFor(rows, families[i])]
  {
    assert families[..i + 1][..i] == families[..i];
  }

  /** The votes of the families of some observations. */
  method FamilyDiscrete(obs: seq<Observation<Value>>) returns (votes: seq<Vote>)
    ensures votes == Votes(Rows(obs))
  {
    var families := GroupByFamily(obs);
    ghost var rows, names := Rows(obs), Distinct(FamilyNames(Rows(obs)));
    DistinctAreNamed(FamilyNames(rows));
    votes := [];
    for i := 0 to |families|
      invariant AllNamed(names[..i], FamilyNames(rows)) && votes == VotesOf(rows, names[..i])
    {
      var (family, members) := families[i];
      VotesNext(rows, names, i);
      InFamilySome(rows, family);
      assert Keys(families)[i] == family;
      var v := FamilyBallot(family, members);
      votes := votes + [v];
    }
    assert names[..|families|] == names;
  }

  // ---------- the field ----------

  function FirstVoted(votes: seq<Vote>): Value {
    if votes == [] then Value("", "") else votes[0].value
  }

  function VoteBucket(votes: seq<Vote>, key: string): Bucket<Vote> {
    Bucket(FirstVoted(VotesFor(votes, key)), WeightOf(VoteStakes(votes), key), VotesFor(votes, key))
  }

  predicate VoteBuckets(m: Dict<string, Bucket<Vote>>, votes: seq<Vote>) {
    && Keys(m) == Distinct(KeysOf(VoteStakes(votes)))
    && forall j :: 0 <= j < |m| ==> m[j].1 == VoteBucket(votes, m[j].0)
  }

  lemma VoteBucketSnoc(votes: seq<Vote>, v: Vote, key: string)
    ensures var b, b' := VoteBucket(votes, key), VoteBucket(votes + [v], key);
            if v.value.key == key then
              b' == Bucket(if VotesFor(votes, key) == [] then v.value else b.value,
                           b.weight + v.weight, b.members + [v])
            else b' == b
  {
    assert (votes + [v])[..|votes|] == votes;
    assert VoteStakes(votes + [v])[..|votes|] == VoteStakes(votes);
    if v.value.key == key {
      assert VotesFor(votes + [v], key) == VotesFor(votes, key) + [v];
    } else {
      assert VotesFor(votes + [v], key) == VotesFor(votes, key);
    }
  }

  method AddVote(m: Dict<string, Bucket<Vote>>, v: Vote, ghost votes: seq<Vote>)
    returns (m': Dict<string, Bucket<Vote>>)
    requires VoteBuckets(m, votes)
    ensures VoteBuckets(m', votes + [v])
  {
    var k := v.value.key;
    var found := Get(m, k);
    var b := if found.Some? then found.value else Bucket(v.value, 0.0, []);
    var b' := Bucket(b.value, b.weight + v.weight, b.members + [v]);
    m' := Put(m, k, b');
    var names := KeysOf(VoteStakes(votes));
    KeysUnique(names, m);
    PutKeys(names, m, k, b');
    assert KeysOf(VoteStakes(votes + [v])) == names + [k];
    assert b' == VoteBucket(votes + [v], k) by {
      HasIff(m, k);
      DistinctMembers(names, k);
      VotesForSome(votes, k);
      VoteBucketSnoc(votes, v, k);
      NoWeight(VoteStakes(votes), k);
    }
    forall j | 0 <= j < |m'| ensures m'[j].1 == VoteBucket(votes + [v], m'[j].0) {
      PutPlaces(m, k, b', j);
      VoteBucketSnoc(votes, v, m'[j].0);
    }
  }

  method FillVotes(votes: seq<Vote>) returns (m: Dict<string, Bucket<Vote>>, total: real)
    ensures VoteBuckets(m, votes) && total == Total(VoteStakes(votes))
  {
    m, total := [], 0.0;
    ghost var s := VoteStakes(votes);
    for i := 0 to |votes|
      invariant VoteBuckets(m, votes[..i]) && total == Total(s[..i])
    {
      assert votes[..i + 1] == votes[..i] + [votes[i]];
      TotalNext(s, i);
      m := AddVote(m, votes[i], votes[..i]);
      total := total + votes[i].weight;
    }
    assert votes[..|votes|] == votes && s[..|votes|] == s;
  }

  /** What the winning votes agree on, whom they name, and whom they are in conflict with. */
  method Gather(winners: seq<Vote>) returns (agreed: real, sources: seq<string>, conflicts: seq<string>)
    ensures agreed == Total(AgreedStakes(winners)) && sources == AllSources(winners)
            && conflicts == AllConflicts(winners)
  {
    agreed, sources, conflicts := 0.0, [], [];
    ghost var s := AgreedStakes(winners);
    for i := 0 to |winners|
      invariant agreed == Total(s[..i]) && sources == AllSources(winners[..i])
                && conflicts == AllConflicts(winners[..i])
    {
      assert winners[..i + 1][..i] == winners[..i];
      TotalNext(s, i);
      agreed := agreed + Times(winners[i].weight, winners[i].agreement);
      sources := sources + winners[i].sources;
      conflicts := conflicts + winners[i].conflicts;
    }
    assert winners[..|winners|] == winners && s[..|winners|] == s;
  }

  /** The members of the families that voted otherwise. */
  method Losers(votes: seq<Vote>, winners: seq<Vote>, ghost key: string) returns (losers: seq<string>)
    requires winners == VotesFor(votes, key)
    ensures losers == AllMembers(VotesAgainst(votes, key))
  {
    losers := [];
    for i := 0 to |votes|
      invariant losers == AllMembers(VotesAgainst(votes[..i], key))
    {
      assert votes[..i + 1][..i] == votes[..i];
      VotesForMember(votes, key, votes[i]);
      VotesAgainstNext(votes, key, i);
      if votes[i] !in winners {
        losers := losers + votes[i].sources + votes[i].conflicts;
      }
    }
    assert votes[..|votes|] == votes;
  }

  lemma VotesAgainstNext(votes: seq<Vote>, key: string, i: nat)
    requires i < |votes|
    ensures VotesAgainst(votes[..i + 1], key)
         == if votes[i].value.key != key then VotesAgainst(votes[..i], key) + [votes[i]]
             else VotesAgainst(votes[..i], key)
  {
    assert votes[..i + 1][..i] == votes[..i];
  }

  lemma {:induction false} VotesForMember(votes: seq<Vote>, key: string, v: Vote)
    ensures v in VotesFor(votes, key) <==> v in votes && v.value.key == key
    decreases |votes|
  {
    if votes != [] {
      VotesForMember(votes[..|votes| - 1], key, v);
      assert votes == votes[..|votes| - 1] + [votes[|votes| - 1]];
    }
  }

  /** Each name once, where it came first. */
  method Unrepeated(names: seq<string>) returns (once: seq<string>)
    ensures once == Distinct(names)
  {
    once := [];
    for i := 0 to |names|
      invariant once == Distinct(names[..i])
    {
      assert names[..i + 1][..i] == names[..i];
      if names[i] !in once {
        once := once + [names[i]];
      }
    }
    assert names[..|names|] == names;
  }

  lemma FieldUnfolds(votes: seq<Vote>)
    requires votes != []
    ensures var s, key := VoteStakes(votes), Winner(VoteStakes(votes));
            var winners := VotesFor(votes, key);
            FieldOf(votes)
            == Field(FirstVoted(winners), Times(Share(s, key), Internal(winners, WeightOf(s, key))),
                     AllSources(winners),
                     Distinct(AllConflicts(winners) + AllMembers(VotesAgainst(votes, key))), |votes|)
  {
    WinnerPresent(VoteStakes(votes));
    VotesForSome(votes, Winner(VoteStakes(votes)));
  }

  /** The bucket that wins, and its share of the whole. */
  method Leader(votes: seq<Vote>) returns (win: Bucket<Vote>, share: real)
    requires votes != []
    ensures var s, key := VoteStakes(votes), Winner(VoteStakes(votes));
            win == VoteBucket(votes, key) && share == Share(s, key)
  {
    var buckets, total := FillVotes(votes);
    win := Top(buckets, VoteStakes(votes));
    ghost var j :| 0 <= j < |buckets| && buckets[j] == (Winner(VoteStakes(votes)), win);
    share := if total != 0.0 then win.weight / total else 0.0;
  }

  method FieldBallot(votes: seq<Vote>) returns (field: Field)
    requires votes != []
    ensures field == FieldOf(votes)
  {
    FieldUnfolds(votes);
    var win, outer := Leader(votes);
    var winners := win.members;
    var agreed, sources, conflicts := Gather(winners);
    var internal := agreed / if win.weight != 0.0 then win.weight else 1.0;
    var losers := Losers(votes, winners, Winner(VoteStakes(votes)));
    var conflicting := Unrepeated(conflicts + losers);
    field := Field(win.value, Times(outer, internal), sources, conflicting, |votes|);
  }

  /** The consensus on a discrete field. */
  method DiscreteField(obs: seq<Observation<Value>>) returns (field: Option<Field>)
    ensures field == Discrete(obs)
  {
    var votes := FamilyDiscrete(obs);
    if votes == [] {
      return None;
    }
    var f := FieldBallot(votes);
    field := Some(f);
  }
}
