/** Shared value types: an optional value, and the insertion-ordered dictionary that the
    repository gets from a JavaScript `Map`. */
module Collections {

  datatype Option<+T> = None | Some(value: T)

  /** A dictionary is the sequence of its entries, oldest key first.  Storing under a key that is
      already present keeps the position of that key, as a JavaScript `Map` does. */
  type Dict<K, V> = seq<(K, V)>

  ghost predicate Unique<K, V>(m: Dict<K, V>) {
    forall i, j :: 0 <= i < j < |m| ==> m[i].0 != m[j].0
  }

  /** Position of the first entry for k, or |m| when there is none. */
  function IndexOf<K(==), V>(m: Dict<K, V>, k: K): (r: nat)
    ensures r <= |m|
    ensures r < |m| ==> m[r].0 == k
    ensures forall j :: 0 <= j < r ==> m[j].0 != k
  {
    if |m| == 0 || m[0].0 == k then 0 else 1 + IndexOf(m[1..], k)
  }

  predicate Has<K(==), V>(m: Dict<K, V>, k: K) {
    IndexOf(m, k) < |m|
  }

  function Get<K(==), V>(m: Dict<K, V>, k: K): Option<V> {
    var i := IndexOf(m, k);
    if i < |m| then Some(m[i].1) else None
  }

  function Put<K(==), V>(m: Dict<K, V>, k: K, v: V): Dict<K, V> {
    var i := IndexOf(m, k);
    if i < |m| then m[i := (k, v)] else m + [(k, v)]
  }

  function Remove<K(==), V>(m: Dict<K, V>, k: K): Dict<K, V> {
    var i := IndexOf(m, k);
    if i < |m| then m[..i] + m[i + 1..] else m
  }

  function Keys<K, V>(m: Dict<K, V>): (r: seq<K>)
    ensures |r| == |m|
    ensures forall i :: 0 <= i < |m| ==> r[i] == m[i].0
  {
    seq(|m|, i requires 0 <= i < |m| => m[i].0)
  }

  lemma IndexOfUnique<K, V>(m: Dict<K, V>, i: nat)
    requires Unique(m) && i < |m|
    ensures IndexOf(m, m[i].0) == i
    ensures Get(m, m[i].0) == Some(m[i].1)
  {
  }

  lemma HasIff<K, V>(m: Dict<K, V>, k: K)
    ensures Has(m, k) <==> exists i :: 0 <= i < |m| && m[i].0 == k
    ensures Has(m, k) <==> k in Keys(m)
    ensures Has(m, k) <==> Get(m, k).Some?
  {
    if Has(m, k) {
      assert Keys(m)[IndexOf(m, k)] == k;
    }
  }

  lemma PutFacts<K, V>(m: Dict<K, V>, k: K, v: V)
    requires Unique(m)
    ensures Unique(Put(m, k, v))
    ensures forall j :: Get(Put(m, k, v), j) == if j == k then Some(v) else Get(m, j)
    ensures |Put(m, k, v)| == if Has(m, k) then |m| else |m| + 1
  {
    var p := Put(m, k, v);
    var i := IndexOf(m, k);
    assert p[i] == (k, v);
    forall j ensures Get(p, j) == if j == k then Some(v) else Get(m, j) {
      if j == k {
        IndexOfUnique(p, i);
      } else if Has(m, j) {
        IndexOfUnique(p, IndexOf(m, j));
      }
    }
  }

  lemma RemoveFacts<K, V>(m: Dict<K, V>, k: K)
    requires Unique(m)
    ensures Unique(Remove(m, k))
    ensures forall j :: Get(Remove(m, k), j) == if j == k then None else Get(m, j)
    ensures |Remove(m, k)| == if Has(m, k) then |m| - 1 else |m|
  {
    var r := Remove(m, k);
    var i := IndexOf(m, k);
    forall j ensures Get(r, j) == if j == k then None else Get(m, j) {
      if Has(r, j) {
        var n := IndexOf(r, j);
        var n' := if n < i then n else n + 1;
        assert m[n'] == r[n];
        IndexOfUnique(m, n');
      }
      if j != k && Has(m, j) {
        var n := IndexOf(m, j);
        IndexOfUnique(r, if n < i then n else n - 1);
      }
    }
  }

  // ---------- sequences and numbers ----------

  predicate NoDuplicates<T(==)>(xs: seq<T>) {
    forall i, j :: 0 <= i < j < |xs| ==> xs[i] != xs[j]
  }

  function Members<T>(xs: seq<T>): set<T> {
    set i | 0 <= i < |xs| :: xs[i]
  }

  lemma {:induction false} MembersCount<T>(xs: seq<T>)
    requires NoDuplicates(xs)
    ensures |Members(xs)| == |xs|
    decreases |xs|
  {
    if xs != [] {
      var init, last := xs[..|xs| - 1], xs[|xs| - 1];
      MembersCount(init);
      assert xs == init + [last];
      assert Members(xs) == Members(init) + {last};
      assert last !in Members(init);
    } else {
      assert Members(xs) == {};
    }
  }

  lemma ConcatAssociates<T>(a: seq<T>, b: seq<T>, c: seq<T>)
    ensures a + b + c == a + (b + c)
  {
  }

  /** The last n elements, or all of them when there are no more. */
  function LastOf<T>(xs: seq<T>, n: nat): seq<T> {
    if |xs| <= n then xs else xs[|xs| - n..]
  }

  function Min(a: real, b: real): real {
    if a <= b then a else b
  }

  function Max(a: real, b: real): real {
    if a >= b then a else b
  }

  function Smaller(a: nat, b: nat): nat {
    if a <= b then a else b
  }

  /** What an eviction leaves of a limit: the floor of 0.8 times it. */
  function Target(maxEntries: nat): nat {
    maxEntries * 4 / 5
  }
}
