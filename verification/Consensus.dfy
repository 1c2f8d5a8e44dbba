/** Evidence consensus on one discrete field (src/core/consensus.ts): providers vote inside their
    upstream family, and the families vote with capped weights.  Weights are exact reals. */
module Consensus {
  import opened Collections
  import opened Families
  import opened Tally

  /** A field value with the key it is compared by. */
  datatype Value = Value(content: string, key: string)

  type Ballot = Row<Value>

  datatype Vote = Vote(family: string, value: Value, weight: real, agreement: real,
                       sources: seq<string>, conflicts: seq<string>)

  datatype Field = Field(value: Value, agreement: real, sources: seq<string>, conflicting: seq<string>, families: nat)

  // ---------- one family ----------

  function Stakes(rows: seq<Ballot>): (r: seq<Stake>)
    ensures |r| == |rows| && forall i :: 0 <= i < |rows| ==> r[i] == Stake(rows[i].value.key, rows[i].weight)
  {
    seq(|rows|, i requires 0 <= i < |rows| => Stake(rows[i].value.key, rows[i].weight))
  }

  function WithKey(rows: seq<Ballot>, key: string): seq<Ballot>
    decreases |rows|
  {
    if rows == [] then []
    else WithKey(rows[..|rows| - 1], key) + if rows[|rows| - 1].value.key == key then [rows[|rows| - 1]] else []
  }

  /** The providers that are not among the sources. */
  function Others(rows: seq<Ballot>, sources: seq<string>): seq<string>
    decreases |rows|
  {
    if rows == [] then []
    else
      Others(rows[..|rows| - 1], sources)
      + if rows[|rows| - 1].provider !in sources then [rows[|rows| - 1].provider] else []
  }

  lemma {:induction false} WithKeySome(rows: seq<Ballot>, key: string)
    ensures WithKey(rows, key) != [] <==> key in KeysOf(Stakes(rows))
    decreases |rows|
  {
    if rows != [] {
      var init := rows[..|rows| - 1];
      WithKeySome(init, key);
      assert KeysOf(Stakes(rows)) == KeysOf(Stakes(init)) + [rows[|rows| - 1].value.key];
    }
  }

  /** The rows that voted for the family's winner. */
  function Supporters(rows: seq<Ballot>): (r: seq<Ballot>)
    requires rows != []
    ensures r != []
  {
    WinnerPresent(Stakes(rows));
    WithKeySome(rows, Winner(Stakes(rows)));
    WithKey(rows, Winner(Stakes(rows)))
  }

  /** The vote of a family: its heaviest value, weighted by its heaviest member and by how far the
      family agrees. */
  function VoteOf(family: string, rows: seq<Ballot>): Vote
    requires rows != []
  {
    var supporters := Supporters(rows);
    var agreement := Share(Stakes(rows), Winner(Stakes(rows)));
    Vote(family, supporters[0].value, Times(MaxWeight(rows), Max(0.15, agreement)), agreement,
         Providers(supporters), Others(rows, Providers(supporters)))
  }

  // ---------- the families ----------

  function VoteFor(rows: seq<Ballot>, family: string): Vote
    requires family in FamilyNames(rows)
  {
    InFamilySome(rows, family);
    VoteOf(family, InFamily(rows, family))
  }

  /** One vote for each of these families. */
  function VotesOf(rows: seq<Ballot>, families: seq<string>): (r: seq<Vote>)
    requires AllNamed(families, FamilyNames(rows))
    ensures |r| == |families|
    decreases |families|
  {
    if families == [] then []
    else VotesOf(rows, families[..|families| - 1]) + [VoteFor(rows, families[|families| - 1])]
  }

  function Votes(rows: seq<Ballot>): seq<Vote> {
    DistinctAreNamed(FamilyNames(rows));
    VotesOf(rows, Distinct(FamilyNames(rows)))
  }

  // ---------- the field ----------

  function VoteStakes(votes: seq<Vote>): (r: seq<Stake>)
    ensures |r| == |votes| && forall i :: 0 <= i < |votes| ==> r[i] == Stake(votes[i].value.key, votes[i].weight)
  {
    seq(|votes|, i requires 0 <= i < |votes| => Stake(votes[i].value.key, votes[i].weight))
  }

  function VotesFor(votes: seq<Vote>, key: string): seq<Vote>
    decreases |votes|
  {
    if votes == [] then []
    else VotesFor(votes[..|votes| - 1], key) + if votes[|votes| - 1].value.key == key then [votes[|votes| - 1]] else []
  }

  function VotesAgainst(votes: seq<Vote>, key: string): seq<Vote>
    decreases |votes|
  {
    if votes == [] then []
    else
      VotesAgainst(votes[..|votes| - 1], key)
      + if votes[|votes| - 1].value.key != key then [votes[|votes| - 1]] else []
  }

  lemma {:induction false} VotesForSome(votes: seq<Vote>, key: string)
    ensures VotesFor(votes, key) != [] <==> key in KeysOf(VoteStakes(votes))
    decreases |votes|
  {
    if votes != [] {
      var init := votes[..|votes| - 1];
      VotesForSome(init, key);
      assert KeysOf(VoteStakes(votes)) == KeysOf(VoteStakes(init)) + [votes[|votes| - 1].value.key];
    }
  }

  function AgreedStakes(votes: seq<Vote>): (r: seq<Stake>)
    ensures |r| == |votes|
    ensures forall i :: 0 <= i < |votes| ==>
            r[i] == Stake(votes[i].value.key, Times(votes[i].weight, votes[i].agreement))
  {
    seq(|votes|, i requires 0 <= i < |votes| => Stake(votes[i].value.key, Times(votes[i].weight, votes[i].agreement)))
  }

  function AllSources(votes: seq<Vote>): seq<string>
    decreases |votes|
  {
    if votes == [] then [] else AllSources(votes[..|votes| - 1]) + votes[|votes| - 1].sources
  }

  function AllConflicts(votes: seq<Vote>): seq<string>
    decreases |votes|
  {
    if votes == [] then [] else AllConflicts(votes[..|votes| - 1]) + votes[|votes| - 1].conflicts
  }

  function AllMembers(votes: seq<Vote>): seq<string>
    decreases |votes|
  {
    if votes == [] then []
    else AllMembers(votes[..|votes| - 1]) + votes[|votes| - 1].sources + votes[|votes| - 1].conflicts
  }

  /** How far the winning votes agree inside their families. */
  function Internal(votes: seq<Vote>, weight: real): real {
    Total(AgreedStakes(votes)) / if weight != 0.0 then weight else 1.0
  }

  function FieldOf(votes: seq<Vote>): Field
    requires votes != []
  {
    var s := VoteStakes(votes);
    var key := Winner(s);
    var winners := VotesFor(votes, key);
    WinnerPresent(s);
    VotesForSome(votes, key);
    Field(winners[0].value, Times(Share(s, key), Internal(winners, WeightOf(s, key))), AllSources(winners),
          Distinct(AllConflicts(winners) + AllMembers(VotesAgainst(votes, key))), |votes|)
  }

  /** The consensus on a field, when any provider has a value for it. */
  function Discrete(obs: seq<Observation<Value>>): Option<Field> {
    var votes := Votes(Rows(obs));
    if votes == [] then None else Some(FieldOf(votes))
  }
}
