/** Counting weighted stakes by key (src/core/consensus.ts): which key wins, and what share of the
    whole it has. */
module Tally {
  import opened Collections
  import opened Sorting

  // ---------- names in order of first appearance ----------

  /** What a JavaScript `Set` or `Map` keeps of a list of names: each one once, where it came first. */
  function Distinct(names: seq<string>): seq<string>
    decreases |names|
  {
    if names == [] then []
    else
      var before, last := Distinct(names[..|names| - 1]), names[|names| - 1];
      if last in before then before else before + [last]
  }

  lemma {:induction false} DistinctMembers(names: seq<string>, n: string)
    ensures n in Distinct(names) <==> n in names
    decreases |names|
  {
    if names != [] {
      DistinctMembers(names[..|names| - 1], n);
      assert names == names[..|names| - 1] + [names[|names| - 1]];
    }
  }

  lemma {:induction false} DistinctOnce(names: seq<string>)
    ensures NoDuplicates(Distinct(names))
    decreases |names|
  {
    if names != [] {
      DistinctOnce(names[..|names| - 1]);
    }
  }

  /** Repeating a name later changes nothing. */
  lemma {:induction false} DistinctRepeat(a: seq<string>, x: string, b: seq<string>)
    requires x in a
    ensures Distinct(a + [x] + b) == Distinct(a + b)
    decreases |b|
  {
    if b == [] {
      assert a + [x] + b == a + [x] && a + b == a;
      DistinctMembers(a, x);
    } else {
      var init, last := b[..|b| - 1], b[|b| - 1];
      DistinctRepeat(a, x, init);
      assert a + [x] + b == a + [x] + init + [last] && a + b == a + init + [last];
    }
  }

  // ---------- products ----------

  function Times(x: real, y: real): real {
    x * y
  }

  /** A part of something positive is no larger, and as large only if it is all of it. */
  lemma TimesShare(x: real, share: real)
    requires x > 0.0 && 0.0 < share <= 1.0
    ensures 0.0 < Times(x, share) <= x && (Times(x, share) == x <==> share == 1.0)
  {
  }

  // ---------- stakes ----------

  datatype Stake = Stake(key: string, weight: real)

  predicate Positive(s: seq<Stake>) {
    forall i :: 0 <= i < |s| ==> s[i].weight > 0.0
  }

  function Total(s: seq<Stake>): real
    decreases |s|
  {
    if s == [] then 0.0 else Total(s[..|s| - 1]) + s[|s| - 1].weight
  }

  lemma TotalNext(s: seq<Stake>, i: nat)
    requires i < |s|
    ensures Total(s[..i + 1]) == Total(s[..i]) + s[i].weight
  {
    assert s[..i + 1][..i] == s[..i];
  }

  function WeightOf(s: seq<Stake>, key: string): real
    decreases |s|
  {
    if s == [] then 0.0
    else WeightOf(s[..|s| - 1], key) + if s[|s| - 1].key == key then s[|s| - 1].weight else 0.0
  }

  function KeysOf(s: seq<Stake>): (r: seq<string>)
    ensures |r| == |s| && forall i :: 0 <= i < |s| ==> r[i] == s[i].key
  {
    seq(|s|, i requires 0 <= i < |s| => s[i].key)
  }

  /** The heaviest of some keys, the first one if several are. */
  function Heaviest(s: seq<Stake>, keys: seq<string>): string
    requires keys != []
    decreases |keys|
  {
    var last := keys[|keys| - 1];
    if |keys| == 1 then last
    else
      var best := Heaviest(s, keys[..|keys| - 1]);
      if WeightOf(s, last) > WeightOf(s, best) then last else best
  }

  function Winner(s: seq<Stake>): string
    requires s != []
  {
    Heaviest(s, Distinct(KeysOf(s)))
  }

  /** The place of the heaviest key: none weighs more, and none before it as much. */
  lemma {:induction false} HeaviestPlace(s: seq<Stake>, keys: seq<string>) returns (j: nat)
    requires keys != []
    ensures j < |keys| && keys[j] == Heaviest(s, keys)
    ensures forall i :: 0 <= i < |keys| ==> WeightOf(s, keys[i]) <= WeightOf(s, keys[j])
    ensures forall i :: 0 <= i < j ==> WeightOf(s, keys[i]) < WeightOf(s, keys[j])
    decreases |keys|
  {
    var n := |keys| - 1;
    j := n;
    if n > 0 {
      var i := HeaviestPlace(s, keys[..n]);
      if WeightOf(s, keys[n]) <= WeightOf(s, keys[i]) {
        j := i;
      }
    }
  }

  /** No key outweighs the winner, which is one of the keys. */
  lemma WinnerIsHeaviest(s: seq<Stake>, key: string)
    requires s != [] && key in KeysOf(s)
    ensures Winner(s) in KeysOf(s) && WeightOf(s, key) <= WeightOf(s, Winner(s))
  {
    var j := HeaviestPlace(s, Distinct(KeysOf(s)));
    DistinctMembers(KeysOf(s), key);
    DistinctMembers(KeysOf(s), Winner(s));
  }

  lemma WinnerPresent(s: seq<Stake>)
    requires s != []
    ensures Winner(s) in KeysOf(s)
  {
    assert KeysOf(s)[0] in KeysOf(s);
    WinnerIsHeaviest(s, KeysOf(s)[0]);
  }

  // ---------- shares ----------

  predicate AllKeys(s: seq<Stake>, key: string) {
    forall i :: 0 <= i < |s| ==> s[i].key == key
  }

  /** A key has at most everything, and everything exactly when there is no other key. */
  lemma {:induction false} ShareBounds(s: seq<Stake>, key: string)
    requires Positive(s)
    ensures 0.0 <= WeightOf(s, key) <= Total(s)
    ensures WeightOf(s, key) == Total(s) <==> AllKeys(s, key)
    decreases |s|
  {
    if s != [] {
      ShareBounds(s[..|s| - 1], key);
    }
  }

  lemma InSnoc(names: seq<string>, n: string)
    requires names != []
    ensures n in names <==> n in names[..|names| - 1] || n == names[|names| - 1]
  {
    assert names == names[..|names| - 1] + [names[|names| - 1]];
  }

  /** A key has something exactly when it occurs. */
  lemma {:induction false} ShareSome(s: seq<Stake>, key: string)
    requires Positive(s)
    ensures WeightOf(s, key) >= 0.0 && (WeightOf(s, key) > 0.0 <==> key in KeysOf(s))
    decreases |s|
  {
    if s != [] {
      ShareSome(s[..|s| - 1], key);
      assert KeysOf(s)[..|s| - 1] == KeysOf(s[..|s| - 1]);
      InSnoc(KeysOf(s), key);
    }
  }

  /** Smaller stakes sum to no more, and to as much only if none is smaller. */
  lemma {:induction false} TotalCompare(s: seq<Stake>, t: seq<Stake>)
    requires |s| == |t| && forall i :: 0 <= i < |s| ==> 0.0 <= s[i].weight <= t[i].weight
    ensures 0.0 <= Total(s) <= Total(t)
    ensures Total(s) == Total(t) <==> forall i :: 0 <= i < |s| ==> s[i].weight == t[i].weight
    decreases |s|
  {
    if s != [] {
      var n := |s| - 1;
      TotalCompare(s[..n], t[..n]);
      assert forall i :: 0 <= i < n ==> s[i] == s[..n][i] && t[i] == t[..n][i];
    }
  }

  lemma {:induction false} TotalPositive(s: seq<Stake>)
    requires Positive(s)
    ensures Total(s) >= 0.0 && (s != [] ==> Total(s) > 0.0)
    decreases |s|
  {
    if s != [] {
      TotalPositive(s[..|s| - 1]);
    }
  }

  function Share(s: seq<Stake>, key: string): real {
    if Total(s) != 0.0 then WeightOf(s, key) / Total(s) else 0.0
  }

  lemma Ratio(part: real, whole: real)
    requires 0.0 < part <= whole
    ensures 0.0 < part / whole <= 1.0
    ensures part / whole == 1.0 <==> part == whole
  {
    assert part / whole * whole == part;
  }

  /** The winner's share lies in (0, 1], and is 1 exactly when there is nothing else. */
  lemma WinnerShare(s: seq<Stake>)
    requires s != [] && Positive(s)
    ensures 0.0 < Share(s, Winner(s)) <= 1.0
    ensures Share(s, Winner(s)) == 1.0 <==> AllKeys(s, Winner(s))
    ensures 0.0 < WeightOf(s, Winner(s)) <= Total(s)
  {
    WinnerPresent(s);
    ShareSome(s, Winner(s));
    ShareBounds(s, Winner(s));
    Ratio(WeightOf(s, Winner(s)), Total(s));
  }

  // ---------- the sort that finds the winner ----------

  function Ranking(s: seq<Stake>, keys: seq<string>): (r: seq<Keyed<string>>)
    ensures |r| == |keys| && forall i :: 0 <= i < |keys| ==> r[i] == Keyed(-WeightOf(s, keys[i]), keys[i])
  {
    seq(|keys|, i requires 0 <= i < |keys| => Keyed(-WeightOf(s, keys[i]), keys[i]))
  }

  /** Sorting by descending weight puts the heaviest key first. */
  lemma SortFindsHeaviest(s: seq<Stake>, keys: seq<string>)
    requires keys != []
    ensures |Sort(Ranking(s, keys))| == |keys| && Sort(Ranking(s, keys))[0].item == Heaviest(s, keys)
  {
    var j := HeaviestPlace(s, keys);
    SortFacts(Ranking(s, keys));
    SortHead(Ranking(s, keys), j);
  }
}
