/** The fixed-window rate limiter (src/server/rate-limit.ts): the object with its pruned and bounded
    window map, and a reference with one never-pruned window per key. */
module RateLimit {
  import opened Collections
  import opened Sorting

  const MINUTE := 60000

  datatype Window = Window(start: int, count: nat, lastSeen: int)

  datatype Verdict = Verdict(ok: bool, remaining: nat, resetMs: int)

  datatype Config = Config(perMinute: nat, maxEntries: nat)

  datatype State = State(windows: Dict<string, Window>, calls: nat)

  datatype Call = Call(key: string, now: int)

  // ---------- one key ----------

  /** The window that counts a call at this time. */
  function Counted(w: Option<Window>, now: int): Window {
    if w.None? || now - w.value.start >= MINUTE then Window(now, 1, now)
    else w.value.(count := w.value.count + 1, lastSeen := now)
  }

  function Judge(w: Window, now: int, perMinute: nat): Verdict {
    Verdict(w.count <= perMinute,
            if perMinute > w.count then perMinute - w.count else 0,
            if MINUTE - (now - w.start) > 0 then MINUTE - (now - w.start) else 0)
  }

  // ---------- the map ----------

  function Unexpired(m: Dict<string, Window>, now: int): Dict<string, Window> {
    if m == [] then []
    else (if now - m[0].1.lastSeen >= MINUTE then [] else [m[0]]) + Unexpired(m[1..], now)
  }

  function ByLastSeen(m: Dict<string, Window>): (r: seq<Keyed<string>>)
    ensures |r| == |m|
    ensures forall i :: 0 <= i < |m| ==> r[i] == Keyed(m[i].1.lastSeen as real, m[i].0)
  {
    seq(|m|, i requires 0 <= i < |m| => Keyed(m[i].1.lastSeen as real, m[i].0))
  }

  function RemoveKeyed(m: Dict<string, Window>, ks: seq<Keyed<string>>): Dict<string, Window>
    decreases |ks|
  {
    if ks == [] then m else Remove(RemoveKeyed(m, ks[..|ks| - 1]), ks[|ks| - 1].item)
  }

  /** Expiry, and if that leaves too many, eviction of the least recently seen down to the target. */
  function Evicted(m: Dict<string, Window>, now: int, maxEntries: nat): Dict<string, Window> {
    var live := Unexpired(m, now);
    if |live| <= maxEntries then live
    else
      RemoveKeyed(live, Victims(live, maxEntries))
  }

  /** The map after the prune of every 1024th call. */
  function Pruned(s: State, now: int): Dict<string, Window> {
    if (s.calls + 1) % 1024 == 0 then Unexpired(s.windows, now) else s.windows
  }

  /** The map after the call has been counted. */
  function Touched(s: State, key: string, now: int): Dict<string, Window> {
    Put(Pruned(s, now), key, Counted(Get(Pruned(s, now), key), now))
  }

  function Allowed(cfg: Config, s: State, c: Call): (State, Verdict) {
    var touched := Touched(s, c.key, c.now);
    (State(if |touched| > cfg.maxEntries then Evicted(touched, c.now, cfg.maxEntries) else touched, s.calls + 1),
     Judge(Counted(Get(Pruned(s, c.now), c.key), c.now), c.now, cfg.perMinute))
  }

  // ---------- facts about expiry and eviction ----------

  lemma {:induction false} UnexpiredMembers(m: Dict<string, Window>, now: int, e: (string, Window))
    ensures e in Unexpired(m, now) <==> e in m && now - e.1.lastSeen < MINUTE
    decreases |m|
  {
    if m != [] {
      UnexpiredMembers(m[1..], now, e);
      assert m == [m[0]] + m[1..];
    }
  }

  lemma {:induction false} UnexpiredUnique(m: Dict<string, Window>, now: int)
    requires Unique(m)
    ensures Unique(Unexpired(m, now)) && |Unexpired(m, now)| <= |m|
    decreases |m|
  {
    if m != [] {
      UnexpiredUnique(m[1..], now);
      var rest := Unexpired(m[1..], now);
      forall i | 0 <= i < |rest| ensures rest[i].0 != m[0].0 {
        UnexpiredMembers(m[1..], now, rest[i]);
        var j :| 0 <= j < |m[1..]| && m[1..][j] == rest[i];
        assert m[j + 1].0 != m[0].0;
      }
    }
  }

  /** Expiry forgets exactly the windows not seen for a minute. */
  lemma UnexpiredGet(m: Dict<string, Window>, now: int, k: string)
    requires Unique(m)
    ensures Get(Unexpired(m, now), k) ==
            if Get(m, k).Some? && now - Get(m, k).value.lastSeen < MINUTE then Get(m, k) else None
  {
    UnexpiredUnique(m, now);
    var live := Unexpired(m, now);
    if Get(live, k).Some? {
      var w := Get(live, k).value;
      UnexpiredMembers(m, now, (k, w));
    } else if Get(m, k).Some? {
      var w := Get(m, k).value;
      UnexpiredMembers(m, now, (k, w));
    }
  }

  predicate Listed(ks: seq<Keyed<string>>, k: string) {
    exists i :: 0 <= i < |ks| && ks[i].item == k
  }

  lemma {:induction false} RemoveKeyedNext(m: Dict<string, Window>, ks: seq<Keyed<string>>, last: Keyed<string>)
    requires Unique(m) && DistinctItems(ks + [last]) && Has(m, last.item)
    requires Unique(RemoveKeyed(m, ks)) && |RemoveKeyed(m, ks)| == |m| - |ks|
    requires forall k :: Get(RemoveKeyed(m, ks), k) == if Listed(ks, k) then None else Get(m, k)
    ensures Unique(RemoveKeyed(m, ks + [last])) && |RemoveKeyed(m, ks + [last])| == |m| - |ks + [last]|
    ensures forall k :: Get(RemoveKeyed(m, ks + [last]), k) == if Listed(ks + [last], k) then None else Get(m, k)
  {
    var all, r := ks + [last], RemoveKeyed(m, ks);
    assert all[..|ks|] == ks && all[|ks|] == last;
    RemoveFacts(r, last.item);
    HasIff(r, last.item);
    HasIff(m, last.item);
    forall i | 0 <= i < |ks| ensures ks[i].item != last.item {
      assert all[i].item != all[|ks|].item;
    }
    forall k ensures Listed(all, k) <==> Listed(ks, k) || k == last.item {
      if Listed(ks, k) {
        var i :| 0 <= i < |ks| && ks[i].item == k;
        assert all[i].item == k;
      }
      assert all[|ks|].item == last.item;
    }
  }

  lemma {:induction false} RemoveKeyedFacts(m: Dict<string, Window>, ks: seq<Keyed<string>>)
    requires Unique(m) && DistinctItems(ks)
    requires forall i :: 0 <= i < |ks| ==> Has(m, ks[i].item)
    ensures Unique(RemoveKeyed(m, ks)) && |RemoveKeyed(m, ks)| == |m| - |ks|
    ensures forall k :: Get(RemoveKeyed(m, ks), k) == if Listed(ks, k) then None else Get(m, k)
    decreases |ks|
  {
    if ks != [] {
      var init, last := ks[..|ks| - 1], ks[|ks| - 1];
      assert ks == init + [last];
      RemoveKeyedFacts(m, init);
      RemoveKeyedNext(m, init, last);
    }
  }

  lemma SortedKeysDistinct(m: Dict<string, Window>)
    requires Unique(m)
    ensures DistinctItems(Sort(ByLastSeen(m)))
    ensures forall i :: 0 <= i < |Sort(ByLastSeen(m))| ==>
              Has(m, Sort(ByLastSeen(m))[i].item) && Sort(ByLastSeen(m))[i] in ByLastSeen(m)
  {
    var xs := ByLastSeen(m);
    var s := Sort(xs);
    SortDistinct(xs);
    forall i | 0 <= i < |s| ensures Has(m, s[i].item) && s[i] in xs {
      SortMembers(xs, s[i]);
      var j :| 0 <= j < |xs| && xs[j] == s[i];
      IndexOfUnique(m, j);
    }
  }

  lemma RankOf(live: Dict<string, Window>, s: seq<Keyed<string>>, key: string) returns (k: nat)
    requires Unique(live) && s == Sort(ByLastSeen(live)) && Get(live, key).Some?
    ensures k < |s| && s[k].item == key
  {
    var i := IndexOf(live, key);
    var x := ByLastSeen(live)[i];
    SortMembers(ByLastSeen(live), x);
    k :| 0 <= k < |s| && s[k] == x;
  }

  lemma RankIsLastSeen(live: Dict<string, Window>, s: seq<Keyed<string>>, i: nat)
    requires Unique(live) && s == Sort(ByLastSeen(live)) && i < |s|
    ensures Get(live, s[i].item).Some? && s[i].rank == Get(live, s[i].item).value.lastSeen as real
  {
    SortedKeysDistinct(live);
    var j :| 0 <= j < |live| && ByLastSeen(live)[j] == s[i];
    IndexOfUnique(live, j);
  }

  /** What a forced eviction removes when it has to cut. */
  function Victims(live: Dict<string, Window>, maxEntries: nat): seq<Keyed<string>>
    requires |live| > maxEntries
  {
    SortFacts(ByLastSeen(live));
    var oldest := Sort(ByLastSeen(live));
    oldest[..|live| - Target(maxEntries)]
  }

  lemma VictimShape(live: Dict<string, Window>, maxEntries: nat)
    requires |live| > maxEntries
    ensures |Victims(live, maxEntries)| == |live| - Target(maxEntries) <= |Sort(ByLastSeen(live))|
    ensures forall i :: 0 <= i < |Victims(live, maxEntries)| ==>
            Victims(live, maxEntries)[i] == Sort(ByLastSeen(live))[i]
  {
    SortFacts(ByLastSeen(live));
  }

  lemma VictimFacts(live: Dict<string, Window>, maxEntries: nat)
    requires Unique(live) && |live| > maxEntries
    ensures var r := RemoveKeyed(live, Victims(live, maxEntries));
            && Unique(r) && |r| == Target(maxEntries)
            && forall k :: Get(r, k) == if Listed(Victims(live, maxEntries), k) then None else Get(live, k)
  {
    var v, s := Victims(live, maxEntries), Sort(ByLastSeen(live));
    VictimShape(live, maxEntries);
    SortedKeysDistinct(live);
    forall i, j | 0 <= i < j < |v| ensures v[i].item != v[j].item {
      assert s[i].item != s[j].item;
    }
    forall i | 0 <= i < |v| ensures Has(live, v[i].item) {
      assert Has(live, s[i].item);
    }
    RemoveKeyedFacts(live, v);
  }

  /** No key that survives was seen earlier than a victim. */
  lemma VictimsAreOldest(live: Dict<string, Window>, maxEntries: nat, kept: string, gone: string)
    requires Unique(live) && |live| > maxEntries
    requires Get(live, kept).Some? && !Listed(Victims(live, maxEntries), kept)
            && Listed(Victims(live, maxEntries), gone)
    ensures Get(live, gone).Some? && Get(live, gone).value.lastSeen <= Get(live, kept).value.lastSeen
  {
    var s, v := Sort(ByLastSeen(live)), Victims(live, maxEntries);
    VictimShape(live, maxEntries);
    var g :| 0 <= g < |v| && v[g].item == gone;
    var k := RankOf(live, s, kept);
    assert forall i :: 0 <= i < |v| ==> v[i].item != kept;
    SortFacts(ByLastSeen(live));
    RankIsLastSeen(live, s, g);
    RankIsLastSeen(live, s, k);
  }

  lemma EvictionIsBounded(m: Dict<string, Window>, now: int, maxEntries: nat)
    requires Unique(m)
    ensures Unique(Evicted(m, now, maxEntries)) && |Evicted(m, now, maxEntries)| <= maxEntries
  {
    UnexpiredUnique(m, now);
    if |Unexpired(m, now)| > maxEntries {
      VictimFacts(Unexpired(m, now), maxEntries);
    }
  }

  /** A forced eviction that has to cut leaves four fifths of the limit, rounded down, keeps the windows it
      does not drop, and drops no key seen later than one it keeps. */
  lemma EvictionKeepsNewest(m: Dict<string, Window>, now: int, maxEntries: nat, kept: string, gone: string)
    requires Unique(m) && |Unexpired(m, now)| > maxEntries
    ensures 5 * |Evicted(m, now, maxEntries)| <= 4 * maxEntries < 5 * |Evicted(m, now, maxEntries)| + 5
    ensures Get(Evicted(m, now, maxEntries), kept).Some? ==> Get(Evicted(m, now, maxEntries), kept) == Get(m, kept)
    ensures Get(Evicted(m, now, maxEntries), kept).Some? && Get(Unexpired(m, now), gone).Some?
            && Get(Evicted(m, now, maxEntries), gone).None? ==>
              Get(m, gone).Some? && Get(m, gone).value.lastSeen <= Get(m, kept).value.lastSeen
  {
    UnexpiredUnique(m, now);
    UnexpiredGet(m, now, kept);
    UnexpiredGet(m, now, gone);
    var live := Unexpired(m, now);
    VictimFacts(live, maxEntries);
    if Get(live, kept).Some? && !Listed(Victims(live, maxEntries), kept) && Listed(Victims(live, maxEntries), gone) {
      VictimsAreOldest(live, maxEntries, kept, gone);
    }
  }

  // ---------- runs ----------

  function Run(cfg: Config, calls: seq<Call>): State
    decreases |calls|
  {
    if calls == [] then State([], 0) else Allowed(cfg, Run(cfg, calls[..|calls| - 1]), calls[|calls| - 1]).0
  }

  /** The window of a key that is never pruned or evicted. */
  function Ideal(calls: seq<Call>, key: string): Option<Window>
    decreases |calls|
  {
    if calls == [] then None else
    var before, c := calls[..|calls| - 1], calls[|calls| - 1];
    if c.key == key then Some(Counted(Ideal(before, key), c.now)) else Ideal(before, key)
  }

  predicate NonDecreasing(calls: seq<Call>) {
    forall i, j :: 0 <= i < j < |calls| ==> calls[i].now <= calls[j].now
  }

  /** The call does not evict a live window of the key. */
  predicate Spares(cfg: Config, s: State, c: Call, key: string) {
    var touched := Touched(s, c.key, c.now);
    |touched| > cfg.maxEntries && |Unexpired(touched, c.now)| > cfg.maxEntries ==>
      !Listed(Victims(Unexpired(touched, c.now), cfg.maxEntries), key)
  }

  /** No call of the run evicted a live window of the key. */
  predicate KeySpared(cfg: Config, calls: seq<Call>, key: string)
    decreases |calls|
  {
    calls == []
    || var before, c := calls[..|calls| - 1], calls[|calls| - 1];
       KeySpared(cfg, before, key) && Spares(cfg, Run(cfg, before), c, key)
  }

  /** What the map may have forgotten at this time is expired anyway. */
  predicate Represents(stored: Option<Window>, ideal: Option<Window>, now: int) {
    stored == ideal || (stored.None? && ideal.Some? && now - ideal.value.lastSeen >= MINUTE)
  }

  predicate Sane(w: Option<Window>, now: int) {
    w.Some? ==> w.value.start <= w.value.lastSeen <= now && w.value.count >= 1
  }

  /** The map stands for the never-pruned window of this key. */
  ghost predicate Simulates(m: Dict<string, Window>, ideal: Option<Window>, key: string, now: int) {
    Unique(m) && Represents(Get(m, key), ideal, now) && Sane(ideal, now)
  }

  lemma PruneSimulates(m: Dict<string, Window>, ideal: Option<Window>, key: string, now: int)
    requires Simulates(m, ideal, key, now)
    ensures Simulates(Unexpired(m, now), ideal, key, now)
  {
    UnexpiredUnique(m, now);
    UnexpiredGet(m, now, key);
  }

  /** The never-pruned window after a call of any key. */
  function IdealNext(ideal: Option<Window>, key: string, c: Call): Option<Window> {
    if c.key == key then Some(Counted(ideal, c.now)) else ideal
  }

  /** Forgetting an expired window does not change which window counts the next call. */
  lemma TouchSimulates(s: State, ideal: Option<Window>, key: string, c: Call)
    requires Simulates(s.windows, ideal, key, c.now)
    ensures Counted(Get(Pruned(s, c.now), key), c.now) == Counted(ideal, c.now)
    ensures Simulates(Touched(s, c.key, c.now), IdealNext(ideal, key, c), key, c.now)
  {
    PruneSimulates(s.windows, ideal, key, c.now);
    UnexpiredUnique(s.windows, c.now);
    PutFacts(Pruned(s, c.now), c.key, Counted(Get(Pruned(s, c.now), c.key), c.now));
  }

  /** What a forced eviction does to one key. */
  lemma EvictedGet(m: Dict<string, Window>, now: int, maxEntries: nat, key: string)
    requires Unique(m)
    ensures Unique(Evicted(m, now, maxEntries))
    ensures var live := Unexpired(m, now);
            Get(Evicted(m, now, maxEntries), key) ==
            if |live| > maxEntries && Listed(Victims(live, maxEntries), key) then None else Get(live, key)
  {
    UnexpiredUnique(m, now);
    if |Unexpired(m, now)| > maxEntries {
      VictimFacts(Unexpired(m, now), maxEntries);
    }
  }

  lemma StepSimulates(cfg: Config, s: State, ideal: Option<Window>, key: string, c: Call, later: int)
    requires Simulates(s.windows, ideal, key, c.now) && Spares(cfg, s, c, key) && c.now <= later
    ensures Simulates(Allowed(cfg, s, c).0.windows, IdealNext(ideal, key, c), key, later)
  {
    var touched := Touched(s, c.key, c.now);
    TouchSimulates(s, ideal, key, c);
    PruneSimulates(touched, IdealNext(ideal, key, c), key, c.now);
    EvictedGet(touched, c.now, cfg.maxEntries, key);
  }

  lemma {:induction false} RunSimulates(cfg: Config, calls: seq<Call>, key: string, now: int)
    requires NonDecreasing(calls) && KeySpared(cfg, calls, key) && (calls != [] ==> calls[|calls| - 1].now <= now)
    ensures Simulates(Run(cfg, calls).windows, Ideal(calls, key), key, now)
    decreases |calls|
  {
    if calls != [] {
      var before, c := calls[..|calls| - 1], calls[|calls| - 1];
      RunSimulates(cfg, before, key, c.now);
      StepSimulates(cfg, Run(cfg, before), Ideal(before, key), key, c, now);
    }
  }

  lemma NonDecreasingInit(calls: seq<Call>, c: Call)
    requires NonDecreasing(calls + [c])
    ensures NonDecreasing(calls) && (calls != [] ==> calls[|calls| - 1].now <= c.now)
  {
    var all := calls + [c];
    assert forall i :: 0 <= i < |calls| ==> all[i] == calls[i];
    assert all[|calls|] == c;
  }

  /** Main result.  With a clock that does not go back, a key whose own live window was not evicted is
      answered as by a limiter that never forgets: expiry, and eviction of other keys, are invisible. */
  lemma {:induction false} PruningIsInvisible(cfg: Config, calls: seq<Call>, c: Call)
    requires NonDecreasing(calls + [c]) && KeySpared(cfg, calls, c.key)
    ensures Allowed(cfg, Run(cfg, calls), c).1 == Judge(Counted(Ideal(calls, c.key), c.now), c.now, cfg.perMinute)
  {
    NonDecreasingInit(calls, c);
    RunSimulates(cfg, calls, c.key, c.now);
    TouchSimulates(Run(cfg, calls), Ideal(calls, c.key), c.key, c);
  }

  // ---------- what an eviction costs ----------

  /** The window the map would count a call of this key in. */
  function Counting(cfg: Config, calls: seq<Call>, key: string, now: int): Window {
    Counted(Get(Pruned(Run(cfg, calls), now), key), now)
  }

  /** In any state, a call that evicts a live window of the key forgets it: the key's next call, whenever
      it comes, is counted as the first of a new minute. */
  lemma EvictionRestartsKey(cfg: Config, s: State, e: Call, key: string, now: int)
    requires Unique(s.windows) && !Spares(cfg, s, e, key)
    ensures var t := Allowed(cfg, s, e).0;
            && Unique(t.windows) && Get(t.windows, key).None?
            && Allowed(cfg, t, Call(key, now)).1 == Judge(Window(now, 1, now), now, cfg.perMinute)
  {
    var t := Allowed(cfg, s, e).0;
    UnexpiredUnique(s.windows, e.now);
    PutFacts(Pruned(s, e.now), e.key, Counted(Get(Pruned(s, e.now), e.key), e.now));
    EvictedGet(Touched(s, e.key, e.now), e.now, cfg.maxEntries, key);
    UnexpiredGet(t.windows, now, key);
  }

  lemma ForgettingIff(ideal: Window, now: int)
    requires ideal.count >= 1
    ensures Window(now, 1, now) == Counted(Some(ideal), now) <==> now - ideal.start >= MINUTE
  {
  }

  lemma LiveOnlyIsEvicted(cfg: Config, s: State, e: Call, key: string)
    requires Unique(s.windows) && !Spares(cfg, s, e, key)
    ensures Get(Touched(s, e.key, e.now), key).Some?
  {
    var touched := Touched(s, e.key, e.now);
    UnexpiredUnique(s.windows, e.now);
    PutFacts(Pruned(s, e.now), e.key, Counted(Get(Pruned(s, e.now), e.key), e.now));
    UnexpiredUnique(touched, e.now);
    var live := Unexpired(touched, e.now);
    VictimShape(live, cfg.maxEntries);
    var v := Victims(live, cfg.maxEntries);
    var i :| 0 <= i < |v| && v[i].item == key;
    RankIsLastSeen(live, Sort(ByLastSeen(live)), i);
    UnexpiredGet(touched, e.now, key);
  }

  lemma SparedCounts(cfg: Config, s: State, ideal: Option<Window>, key: string, e: Call, now: int)
    requires Simulates(s.windows, ideal, key, e.now) && e.now <= now && Spares(cfg, s, e, key)
    ensures var t := Allowed(cfg, s, e).0;
            Counted(Get(Pruned(t, now), key), now) == Counted(IdealNext(ideal, key, e), now)
  {
    StepSimulates(cfg, s, ideal, key, e, now);
    TouchSimulates(Allowed(cfg, s, e).0, IdealNext(ideal, key, e), key, Call(key, now));
  }

  lemma EvictedCounts(cfg: Config, s: State, ideal: Option<Window>, key: string, e: Call, now: int)
    requires Simulates(s.windows, ideal, key, e.now) && !Spares(cfg, s, e, key)
    ensures var t := Allowed(cfg, s, e).0; Counted(Get(Pruned(t, now), key), now) == Window(now, 1, now)
    ensures IdealNext(ideal, key, e).Some? && IdealNext(ideal, key, e).value.count >= 1
  {
    EvictionRestartsKey(cfg, s, e, key, now);
    UnexpiredGet(Allowed(cfg, s, e).0.windows, now, key);
    LiveOnlyIsEvicted(cfg, s, e, key);
    TouchSimulates(s, ideal, key, e);
  }

  lemma RunNext(cfg: Config, calls: seq<Call>, c: Call, key: string)
    ensures Run(cfg, calls + [c]) == Allowed(cfg, Run(cfg, calls), c).0
    ensures Ideal(calls + [c], key) == IdealNext(Ideal(calls, key), key, c)
  {
    assert (calls + [c])[..|calls|] == calls;
  }

  /** Main result.  The exact guard: after a first call e that may evict, a key is still counted as by a
      limiter that never forgets exactly when e did not evict its live window, or the minute of that
      window is over anyway. */
  lemma FirstEvictionIff(cfg: Config, before: seq<Call>, e: Call, c: Call)
    requires NonDecreasing(before + [e]) && e.now <= c.now && KeySpared(cfg, before, c.key)
    ensures var calls := before + [e];
            Counting(cfg, calls, c.key, c.now) == Counted(Ideal(calls, c.key), c.now) <==>
              Spares(cfg, Run(cfg, before), e, c.key)
              || (Ideal(calls, c.key).Some? && c.now - Ideal(calls, c.key).value.start >= MINUTE)
  {
    var s, ideal := Run(cfg, before), Ideal(before, c.key);
    NonDecreasingInit(before, e);
    RunSimulates(cfg, before, c.key, e.now);
    RunNext(cfg, before, e, c.key);
    if Spares(cfg, s, e, c.key) {
      SparedCounts(cfg, s, ideal, c.key, e, c.now);
    } else {
      EvictedCounts(cfg, s, ideal, c.key, e, c.now);
      ForgettingIff(IdealNext(ideal, c.key, e).value, c.now);
    }
  }

  // ---------- the quota over any minute ----------

  /** The calls of a key let through during the minute that starts at `from`. */
  function LetThrough(cfg: Config, calls: seq<Call>, key: string, from: int): nat
    decreases |calls|
  {
    if calls == [] then 0 else
    var before, c := calls[..|calls| - 1], calls[|calls| - 1];
    LetThrough(cfg, before, key, from)
    + if c.key == key && from <= c.now < from + MINUTE && Allowed(cfg, Run(cfg, before), c).1.ok then 1 else 0
  }

  function Less1(n: nat): nat {
    if n == 0 then 0 else n - 1
  }

  /** Most calls that any minute can let through. */
  function MinuteBound(perMinute: nat): nat {
    if perMinute == 0 then 0 else 2 * perMinute - 1
  }

  /** How many of the calls counted so far can have fallen into the minute, given the current window. */
  predicate Charged(w: Option<Window>, n: nat, from: int, limit: nat) {
    if w.None? || w.value.lastSeen < from then n == 0
    else if w.value.start < from then n <= Less1(Smaller(w.value.count, limit))
    else if w.value.start < from + MINUTE then n <= Less1(limit) + Smaller(w.value.count, limit)
    else n <= MinuteBound(limit)
  }

  /** The same count for a limiter that never forgets. */
  function IdealThrough(limit: nat, calls: seq<Call>, key: string, from: int): nat
    decreases |calls|
  {
    if calls == [] then 0 else
    var before, c := calls[..|calls| - 1], calls[|calls| - 1];
    IdealThrough(limit, before, key, from)
    + if c.key == key && from <= c.now < from + MINUTE
        && Counted(Ideal(before, key), c.now).count <= limit then 1 else 0
  }

  lemma {:induction false} LastVerdict(cfg: Config, calls: seq<Call>, before: seq<Call>, c: Call)
    requires calls != [] && before == calls[..|calls| - 1] && c == calls[|calls| - 1]
    requires NonDecreasing(calls) && KeySpared(cfg, before, c.key)
    ensures Allowed(cfg, Run(cfg, before), c).1.ok <==> Counted(Ideal(before, c.key), c.now).count <= cfg.perMinute
  {
    assert before + [c] == calls;
    PruningIsInvisible(cfg, before, c);
  }

  lemma {:induction false} ThroughIsIdeal(cfg: Config, calls: seq<Call>, key: string, from: int)
    requires NonDecreasing(calls) && KeySpared(cfg, calls, key)
    ensures LetThrough(cfg, calls, key, from) == IdealThrough(cfg.perMinute, calls, key, from)
    decreases |calls|
  {
    if calls != [] {
      var before, c := calls[..|calls| - 1], calls[|calls| - 1];
      ThroughIsIdeal(cfg, before, key, from);
      if c.key == key {
        LastVerdict(cfg, calls, before, c);
      }
    }
  }

  lemma {:induction false} MinuteIsCharged(limit: nat, calls: seq<Call>, key: string, from: int, now: int)
    requires NonDecreasing(calls) && (calls != [] ==> calls[|calls| - 1].now <= now)
    ensures var w := Ideal(calls, key);
            && Charged(w, IdealThrough(limit, calls, key, from), from, limit)
            && Sane(w, now)
    decreases |calls|
  {
    if calls != [] {
      var before, c := calls[..|calls| - 1], calls[|calls| - 1];
      MinuteIsCharged(limit, before, key, from, c.now);
    }
  }

  /** Main result.  Although windows are fixed, no minute whatsoever lets more than 2 * perMinute - 1
      calls of a key through (none when perMinute is 0), as long as no live window of that key is
      evicted. */
  lemma AnyMinuteIsBounded(cfg: Config, calls: seq<Call>, key: string, from: int)
    requires NonDecreasing(calls) && KeySpared(cfg, calls, key)
    ensures LetThrough(cfg, calls, key, from) <= MinuteBound(cfg.perMinute)
  {
    if calls != [] {
      ThroughIsIdeal(cfg, calls, key, from);
      MinuteIsCharged(cfg.perMinute, calls, key, from, calls[|calls| - 1].now);
    }
  }

  /** The calls before a time. */
  function Before(calls: seq<Call>, from: int): seq<Call>
    decreases |calls|
  {
    if calls != [] && calls[|calls| - 1].now >= from then Before(calls[..|calls| - 1], from) else calls
  }

  predicate Over(w: Option<Window>, from: int) {
    w.None? || from - w.value.start >= MINUTE
  }

  /** No window of the key is open when the minute begins. */
  predicate Closed(calls: seq<Call>, key: string, from: int) {
    Over(Ideal(Before(calls, from), key), from)
  }

  /** The calls counted in such a minute, given the current window. */
  predicate ChargedAfresh(w: Option<Window>, n: nat, from: int, limit: nat) {
    if w.None? || w.value.lastSeen < from then n == 0 && Over(w, from)
    else w.value.start >= from && n <= if w.value.start < from + MINUTE then Smaller(w.value.count, limit) else limit
  }

  lemma {:induction false} ClosedMinuteIsCharged(limit: nat, calls: seq<Call>, key: string, from: int, now: int)
    requires NonDecreasing(calls) && (calls != [] ==> calls[|calls| - 1].now <= now) && Closed(calls, key, from)
    ensures var w := Ideal(calls, key);
            ChargedAfresh(w, IdealThrough(limit, calls, key, from), from, limit) && Sane(w, now)
    decreases |calls|
  {
    if calls != [] {
      var before, c := calls[..|calls| - 1], calls[|calls| - 1];
      if c.now < from {
        MinuteIsCharged(limit, calls, key, from, c.now);
      } else {
        ClosedMinuteIsCharged(limit, before, key, from, c.now);
      }
    }
  }

  /** Main result.  A minute that begins when no window of the key is open lets no more than perMinute of its
      calls through; only a window left open from before makes room for more. */
  lemma {:induction false} ClosedMinuteKeepsLimit(cfg: Config, calls: seq<Call>, key: string, from: int)
    requires NonDecreasing(calls) && KeySpared(cfg, calls, key) && Closed(calls, key, from)
    ensures LetThrough(cfg, calls, key, from) <= cfg.perMinute
  {
    if calls != [] {
      ThroughIsIdeal(cfg, calls, key, from);
      ClosedMinuteIsCharged(cfg.perMinute, calls, key, from, calls[|calls| - 1].now);
    }
  }

  /** With eviction allowed the map still never ends a call over its limit, whatever the clock does. */
  lemma {:induction false} MapIsBounded(cfg: Config, calls: seq<Call>)
    ensures Unique(Run(cfg, calls).windows) && |Run(cfg, calls).windows| <= cfg.maxEntries
    decreases |calls|
  {
    if calls != [] {
      var before, c := calls[..|calls| - 1], calls[|calls| - 1];
      MapIsBounded(cfg, before);
      var s := Run(cfg, before);
      UnexpiredUnique(s.windows, c.now);
      PutFacts(Pruned(s, c.now), c.key, Counted(Get(Pruned(s, c.now), c.key), c.now));
      EvictionIsBounded(Touched(s, c.key, c.now), c.now, cfg.maxEntries);
    }
  }

  // ---------- when nothing is evicted ----------

  /** The keys that called within the minute up to now. */
  function RecentKeys(calls: seq<Call>, now: int): set<string> {
    set i | 0 <= i < |calls| && now - calls[i].now < MINUTE :: calls[i].key
  }

  /** Within any minute that ends at a call, no more keys called than the map may hold. */
  predicate FewKeys(cfg: Config, calls: seq<Call>)
    decreases |calls|
  {
    calls == []
    || (FewKeys(cfg, calls[..|calls| - 1]) && |RecentKeys(calls, calls[|calls| - 1].now)| <= cfg.maxEntries)
  }

  /** Every window was last seen at a call of its key. */
  ghost predicate Witnessed(m: Dict<string, Window>, calls: seq<Call>) {
    Unique(m) && forall e :: e in m ==> Call(e.0, e.1.lastSeen) in calls
  }

  lemma UnexpiredWitnessed(m: Dict<string, Window>, calls: seq<Call>, now: int)
    requires Witnessed(m, calls)
    ensures Witnessed(Unexpired(m, now), calls)
  {
    UnexpiredUnique(m, now);
    forall e | e in Unexpired(m, now) ensures Call(e.0, e.1.lastSeen) in calls {
      UnexpiredMembers(m, now, e);
    }
  }

  lemma {:induction false} RemoveKeyedMembers(m: Dict<string, Window>, ks: seq<Keyed<string>>, e: (string, Window))
    ensures e in RemoveKeyed(m, ks) ==> e in m
    decreases |ks|
  {
    if ks != [] {
      RemoveKeyedMembers(m, ks[..|ks| - 1], e);
    }
  }

  lemma EvictedWitnessed(m: Dict<string, Window>, calls: seq<Call>, now: int, maxEntries: nat)
    requires Witnessed(m, calls)
    ensures Witnessed(Evicted(m, now, maxEntries), calls)
  {
    UnexpiredWitnessed(m, calls, now);
    EvictionIsBounded(m, now, maxEntries);
    var live := Unexpired(m, now);
    if |live| > maxEntries {
      forall e | e in Evicted(m, now, maxEntries) ensures e in live {
        RemoveKeyedMembers(live, Victims(live, maxEntries), e);
      }
    }
  }

  lemma TouchedWitnessed(s: State, calls: seq<Call>, c: Call)
    requires Witnessed(s.windows, calls)
    ensures Witnessed(Touched(s, c.key, c.now), calls + [c])
  {
    UnexpiredWitnessed(s.windows, calls, c.now);
    var w := Counted(Get(Pruned(s, c.now), c.key), c.now);
    var touched := Touched(s, c.key, c.now);
    PutFacts(Pruned(s, c.now), c.key, w);
    forall e | e in touched ensures Call(e.0, e.1.lastSeen) in calls + [c] {
      if e == (c.key, w) {
        assert (calls + [c])[|calls|] == Call(e.0, e.1.lastSeen);
      } else {
        assert e in Pruned(s, c.now);
      }
    }
  }

  lemma {:induction false} RunWitnessed(cfg: Config, calls: seq<Call>)
    ensures Witnessed(Run(cfg, calls).windows, calls)
    decreases |calls|
  {
    if calls != [] {
      var before, c := calls[..|calls| - 1], calls[|calls| - 1];
      RunWitnessed(cfg, before);
      assert before + [c] == calls;
      TouchedWitnessed(Run(cfg, before), before, c);
      EvictedWitnessed(Touched(Run(cfg, before), c.key, c.now), calls, c.now, cfg.maxEntries);
    }
  }

  lemma {:induction false} CountKeys(m: Dict<string, Window>, keys: set<string>)
    requires Unique(m) && forall e :: e in m ==> e.0 in keys
    ensures |m| <= |keys|
    decreases |m|
  {
    if m != [] {
      assert m[0] in m;
      forall e | e in m[1..] ensures e.0 in keys - {m[0].0} {
        var i :| 0 <= i < |m[1..]| && m[1..][i] == e;
        assert m[i + 1] == e;
      }
      CountKeys(m[1..], keys - {m[0].0});
    }
  }

  lemma LiveAreRecent(m: Dict<string, Window>, calls: seq<Call>, now: int)
    requires Witnessed(m, calls)
    ensures |Unexpired(m, now)| <= |RecentKeys(calls, now)|
  {
    UnexpiredWitnessed(m, calls, now);
    forall e | e in Unexpired(m, now) ensures e.0 in RecentKeys(calls, now) {
      UnexpiredMembers(m, now, e);
      var i :| 0 <= i < |calls| && calls[i] == Call(e.0, e.1.lastSeen);
      assert calls[i].key in RecentKeys(calls, now);
    }
    CountKeys(Unexpired(m, now), RecentKeys(calls, now));
  }

  lemma LiveFit(s: State, before: seq<Call>, calls: seq<Call>, c: Call, limit: nat)
    requires Witnessed(s.windows, before) && calls == before + [c] && |RecentKeys(calls, c.now)| <= limit
    ensures |Unexpired(Touched(s, c.key, c.now), c.now)| <= limit
  {
    TouchedWitnessed(s, before, c);
    LiveAreRecent(Touched(s, c.key, c.now), calls, c.now);
  }

  lemma FittingSpares(cfg: Config, s: State, c: Call, key: string)
    requires |Unexpired(Touched(s, c.key, c.now), c.now)| <= cfg.maxEntries
    ensures Spares(cfg, s, c, key)
  {
  }

  lemma FewKeysSpare(cfg: Config, calls: seq<Call>, key: string)
    requires calls != [] && |RecentKeys(calls, calls[|calls| - 1].now)| <= cfg.maxEntries
    ensures Spares(cfg, Run(cfg, calls[..|calls| - 1]), calls[|calls| - 1], key)
  {
    var before, c := calls[..|calls| - 1], calls[|calls| - 1];
    RunWitnessed(cfg, before);
    LiveFit(Run(cfg, before), before, calls, c, cfg.maxEntries);
    FittingSpares(cfg, Run(cfg, before), c, key);
  }

  /** Main result.  While no more keys than the map may hold call within any one minute, no live window is
      evicted, so every key is answered exactly and bounded in every minute. */
  lemma {:induction false} FewKeysEvictNothing(cfg: Config, calls: seq<Call>, key: string)
    requires FewKeys(cfg, calls)
    ensures KeySpared(cfg, calls, key)
    decreases |calls|
  {
    if calls != [] {
      FewKeysEvictNothing(cfg, calls[..|calls| - 1], key);
      FewKeysSpare(cfg, calls, key);
    }
  }

  // ---------- the bound is attained, and eviction voids it ----------

  lemma {:induction false} OneKeyIsFew(cfg: Config, calls: seq<Call>, key: string)
    requires cfg.maxEntries >= 1 && forall i :: 0 <= i < |calls| ==> calls[i].key == key
    ensures FewKeys(cfg, calls)
    decreases |calls|
  {
    if calls != [] {
      OneKeyIsFew(cfg, calls[..|calls| - 1], key);
      var recent := RecentKeys(calls, calls[|calls| - 1].now);
      assert recent <= {key};
      assert recent == {} || recent == {key};
    }
  }

  /** Calls of one key, none later than the bound. */
  ghost predicate OneKeyUntil(calls: seq<Call>, key: string, bound: int) {
    NonDecreasing(calls) && forall i :: 0 <= i < |calls| ==> calls[i].key == key && calls[i].now <= bound
  }

  lemma OneMoreCall(limit: nat, before: seq<Call>, c: Call, from: int)
    ensures Ideal(before + [c], c.key) == Some(Counted(Ideal(before, c.key), c.now))
    ensures IdealThrough(limit, before + [c], c.key, from) == IdealThrough(limit, before, c.key, from)
              + if from <= c.now < from + MINUTE && Counted(Ideal(before, c.key), c.now).count <= limit then 1 else 0
  {
    assert (before + [c])[..|before|] == before;
  }

  /** After one call at 0, n more at 59999 and then m at 60000: the calls of the minute from 59999 on that
      got through, and the window. */
  ghost predicate AfterBurst(limit: nat, calls: seq<Call>, key: string, n: nat, m: nat) {
    && OneKeyUntil(calls, key, if m > 0 then 60000 else 59999)
    && IdealThrough(limit, calls, key, 59999) == n + m
    && Ideal(calls, key) == Some(if m > 0 then Window(60000, m, 60000)
                                 else if n > 0 then Window(0, n + 1, 59999)
                                 else Window(0, 1, 0))
  }

  lemma BurstStart(limit: nat, key: string)
    ensures AfterBurst(limit, [Call(key, 0)], key, 0, 0)
  {
    OneMoreCall(limit, [], Call(key, 0), 59999);
    assert [] + [Call(key, 0)] == [Call(key, 0)];
  }

  lemma BurstSooner(limit: nat, calls: seq<Call>, key: string, n: nat)
    requires n + 2 <= limit && AfterBurst(limit, calls, key, n, 0)
    ensures AfterBurst(limit, calls + [Call(key, 59999)], key, n + 1, 0)
  {
    OneMoreCall(limit, calls, Call(key, 59999), 59999);
  }

  lemma BurstLater(limit: nat, calls: seq<Call>, key: string, n: nat, m: nat)
    requires n + 1 <= limit && m + 1 <= limit && AfterBurst(limit, calls, key, n, m)
    ensures AfterBurst(limit, calls + [Call(key, 60000)], key, n, m + 1)
  {
    OneMoreCall(limit, calls, Call(key, 60000), 59999);
  }

  lemma {:induction false} Burst(limit: nat, key: string, n: nat, m: nat) returns (calls: seq<Call>)
    requires n + 1 <= limit && m <= limit
    ensures AfterBurst(limit, calls, key, n, m)
    decreases n + m
  {
    if m > 0 {
      var before := Burst(limit, key, n, m - 1);
      BurstLater(limit, before, key, n, m - 1);
      calls := before + [Call(key, 60000)];
    } else if n > 0 {
      var before := Burst(limit, key, n - 1, 0);
      BurstSooner(limit, before, key, n - 1);
      calls := before + [Call(key, 59999)];
    } else {
      BurstStart(limit, key);
      calls := [Call(key, 0)];
    }
  }

  /** The bound cannot be improved: some run of one key lets exactly that many through in one minute. */
  lemma MinuteBoundIsTight(cfg: Config, key: string) returns (calls: seq<Call>)
    requires cfg.maxEntries >= 1 && cfg.perMinute >= 1
    ensures NonDecreasing(calls) && KeySpared(cfg, calls, key)
    ensures LetThrough(cfg, calls, key, 59999) == MinuteBound(cfg.perMinute)
  {
    calls := Burst(cfg.perMinute, key, cfg.perMinute - 1, cfg.perMinute);
    OneKeyIsFew(cfg, calls, key);
    FewKeysEvictNothing(cfg, calls, key);
    ThroughIsIdeal(cfg, calls, key, 59999);
  }

  /** A map without room spares no key that calls. */
  lemma {:induction false} NoRoomSparesNobody(cfg: Config, calls: seq<Call>, key: string, from: int)
    requires cfg.maxEntries == 0 && KeySpared(cfg, calls, key)
    ensures LetThrough(cfg, calls, key, from) == 0
    decreases |calls|
  {
    if calls != [] {
      var before, c := calls[..|calls| - 1], calls[|calls| - 1];
      NoRoomSparesNobody(cfg, before, key, from);
      MapIsBounded(cfg, before);
      if c.key == key {
        NoRoomEvicts(cfg, Run(cfg, before), c);
      }
    }
  }

  lemma {:induction false} NoRoomEvicts(cfg: Config, s: State, c: Call)
    requires cfg.maxEntries == 0 && s.windows == []
    ensures !Spares(cfg, s, c, c.key)
  {
    assert Pruned(s, c.now) == [];
    var touched := Touched(s, c.key, c.now);
    assert touched == [(c.key, Window(c.now, 1, c.now))];
    assert Unexpired(touched[1..], c.now) == [];
    assert Unexpired(touched, c.now) == touched;
    VictimShape(touched, 0);
    SortSorted(ByLastSeen(touched));
    assert Victims(touched, 0)[0].item == c.key;
  }

  /** The limit is kept in every minute of every run that spares the key. */
  ghost predicate KeepsLimit(cfg: Config) {
    forall calls, key, from :: NonDecreasing(calls) && KeySpared(cfg, calls, key) ==>
      LetThrough(cfg, calls, key, from) <= cfg.perMinute
  }

  /** Main result.  It is, exactly when the limit is at most one (or the map has no room to spare any key). */
  lemma {:induction false} KeepsLimitIff(cfg: Config)
    ensures KeepsLimit(cfg) <==> cfg.perMinute <= 1 || cfg.maxEntries == 0
  {
    forall calls, key, from | (cfg.perMinute <= 1 || cfg.maxEntries == 0) && NonDecreasing(calls)
        && KeySpared(cfg, calls, key)
      ensures LetThrough(cfg, calls, key, from) <= cfg.perMinute
    {
      if cfg.maxEntries == 0 {
        NoRoomSparesNobody(cfg, calls, key, from);
      } else {
        AnyMinuteIsBounded(cfg, calls, key, from);
      }
    }
    if cfg.perMinute > 1 && cfg.maxEntries > 0 {
      var calls := MinuteBoundIsTight(cfg, "");
      assert LetThrough(cfg, calls, "", 59999) > cfg.perMinute;
    }
  }

  // ---------- without the premise ----------

  /** Every window of the map was last seen at 0. */
  ghost predicate Tied(m: Dict<string, Window>) {
    Unique(m) && forall i :: 0 <= i < |m| ==> m[i].1.lastSeen == 0
  }

  lemma {:induction false} NoneExpired(m: Dict<string, Window>)
    requires forall i :: 0 <= i < |m| ==> m[i].1.lastSeen == 0
    ensures Unexpired(m, 0) == m
    decreases |m|
  {
    if m != [] {
      NoneExpired(m[1..]);
      assert m == [m[0]] + m[1..];
    }
  }

  /** Removing the first keys one by one leaves the rest. */
  lemma {:induction false} RemoveFirst(m: Dict<string, Window>, ks: seq<Keyed<string>>)
    requires |ks| <= |m| && forall i :: 0 <= i < |ks| ==> ks[i].item == m[i].0
    ensures RemoveKeyed(m, ks) == m[|ks|..]
    decreases |ks|
  {
    if ks != [] {
      var n := |ks| - 1;
      RemoveFirst(m, ks[..n]);
      assert IndexOf(m[n..], m[n].0) == 0;
      assert m[n..][..0] + m[n..][1..] == m[n + 1..];
    }
  }

  /** Among windows seen at the same time the eviction takes those that have been in the map longest. */
  lemma {:induction false} TiesEvictOldest(m: Dict<string, Window>, maxEntries: nat, excess: nat)
    requires Tied(m) && |m| > maxEntries && excess == |m| - Target(maxEntries)
    ensures Evicted(m, 0, maxEntries) == m[excess..]
  {
    NoneExpired(m);
    SortSorted(ByLastSeen(m));
    var v := Victims(m, maxEntries);
    assert v == ByLastSeen(m)[..excess];
    RemoveFirst(m, v);
  }

  /** The map after the call of a key that it does not hold. */
  function Pushed(maxEntries: nat, m: Dict<string, Window>, key: string): Dict<string, Window> {
    var more := m + [(key, Window(0, 1, 0))];
    if |more| > maxEntries then more[|more| - Target(maxEntries)..] else more
  }

  lemma {:induction false} AppendedTied(m: Dict<string, Window>, key: string)
    requires Tied(m) && !Has(m, key)
    ensures Tied(m + [(key, Window(0, 1, 0))])
  {
    HasIff(m, key);
    var more := m + [(key, Window(0, 1, 0))];
    forall i, j | 0 <= i < j < |more| ensures more[i].0 != more[j].0 {
      assert i < |m| && more[i] == m[i];
    }
  }

  lemma {:induction false} PushedTied(maxEntries: nat, m: Dict<string, Window>, key: string)
    requires Tied(m) && |m| <= maxEntries && !Has(m, key)
    ensures Tied(Pushed(maxEntries, m, key)) && |Pushed(maxEntries, m, key)| <= maxEntries
  {
    AppendedTied(m, key);
  }

  lemma {:induction false} NewCall(cfg: Config, m: Dict<string, Window>, calls: nat, key: string)
    requires cfg.perMinute >= 1 && Tied(m) && |m| <= cfg.maxEntries && !Has(m, key)
    ensures Allowed(cfg, State(m, calls), Call(key, 0)).0 == State(Pushed(cfg.maxEntries, m, key), calls + 1)
    ensures Allowed(cfg, State(m, calls), Call(key, 0)).1.ok
  {
    var s, more := State(m, calls), m + [(key, Window(0, 1, 0))];
    NoneExpired(m);
    assert Pruned(s, 0) == m;
    assert Touched(s, key, 0) == more;
    if |more| > cfg.maxEntries {
      AppendedTied(m, key);
      TiesEvictOldest(more, cfg.maxEntries, |more| - Target(cfg.maxEntries));
    }
  }

  // ---------- a key that the map does not hold ----------

  /** A length that no key of the map exceeds. */
  function Longest(m: Dict<string, Window>): (n: nat)
    ensures forall i :: 0 <= i < |m| ==> |m[i].0| <= n
    decreases |m|
  {
    if m == [] then 0
    else
      var n, last := Longest(m[..|m| - 1]), |m[|m| - 1].0|;
      if n >= last then n else last
  }

  lemma {:induction false} Stranger(m: Dict<string, Window>, key: string) returns (other: string)
    ensures other != key && !Has(m, other)
  {
    var n := Longest(m) + |key| + 1;
    other := seq(n, _ => 'x');
    assert |other| == n;
    HasIff(m, other);
  }

  // ---------- driving a key out ----------

  /** Calls at 0 after which the map holds m, and of which n calls of the key were let through. */
  ghost predicate Led(cfg: Config, key: string, calls: seq<Call>, m: Dict<string, Window>, n: nat) {
    AtZero(calls) && Progress(cfg, key, calls) == (m, n) && Tied(m) && |m| <= cfg.maxEntries
  }

  predicate AtZero(calls: seq<Call>) {
    calls == [] || (calls[|calls| - 1].now == 0 && AtZero(calls[..|calls| - 1]))
  }

  lemma {:induction false} AtZeroNext(calls: seq<Call>, key: string)
    requires AtZero(calls)
    ensures AtZero(calls + [Call(key, 0)])
  {
    assert (calls + [Call(key, 0)])[..|calls|] == calls;
  }

  lemma {:induction false} AtZeroAscends(calls: seq<Call>)
    requires AtZero(calls)
    ensures forall i :: 0 <= i < |calls| ==> calls[i].now == 0
  {
    if calls != [] {
      AtZeroAscends(calls[..|calls| - 1]);
    }
  }

  /** The map after these calls, and how many calls of the key were let through. */
  function Progress(cfg: Config, key: string, calls: seq<Call>): (Dict<string, Window>, nat) {
    (Run(cfg, calls).windows, LetThrough(cfg, calls, key, 0))
  }

  lemma {:induction false} LetThroughNext(cfg: Config, before: seq<Call>, c: Call, key: string, s: State, n: nat,
                                          more: nat)
    requires Run(cfg, before) == s && LetThrough(cfg, before, key, 0) == n && c.now == 0
    requires more == n + if c.key == key && Allowed(cfg, s, c).1.ok then 1 else 0
    ensures LetThrough(cfg, before + [c], key, 0) == more
  {
    assert (before + [c])[..|before|] == before;
  }

  lemma {:induction false} CallProgress(cfg: Config, before: seq<Call>, c: Call, key: string, s: State, t: State,
                                        n: nat, more: nat)
    requires Run(cfg, before) == s && LetThrough(cfg, before, key, 0) == n && c.now == 0 && Allowed(cfg, s, c).0 == t
    requires more == n + if c.key == key && Allowed(cfg, s, c).1.ok then 1 else 0
    ensures Progress(cfg, key, before + [c]) == (t.windows, more)
  {
    RunNext(cfg, before, c, key);
    LetThroughNext(cfg, before, c, key, s, n, more);
  }

  /** The call of a key that the map does not hold. */
  lemma {:induction false} LedOn(cfg: Config, key: string, before: seq<Call>, m: Dict<string, Window>, n: nat,
                                 caller: string, more: nat)
    returns (calls: seq<Call>)
    requires cfg.perMinute >= 1 && Led(cfg, key, before, m, n) && !Has(m, caller)
    requires more == n + if caller == key then 1 else 0
    ensures Led(cfg, key, calls, Pushed(cfg.maxEntries, m, caller), more)
  {
    var s := Run(cfg, before);
    NewCall(cfg, m, s.calls, caller);
    PushedTied(cfg.maxEntries, m, caller);
    CallProgress(cfg, before, Call(caller, 0), key, s, Allowed(cfg, s, Call(caller, 0)).0, n, more);
    AtZeroNext(before, caller);
    calls := before + [Call(caller, 0)];
  }

  /** How far the key is from being the next to go, and the room that is left. */
  lemma {:induction false} PushedNearer(maxEntries: nat, m: Dict<string, Window>, other: string, key: string)
    requires Tied(m) && |m| <= maxEntries && !Has(m, other) && Has(m, key)
    ensures var r := Pushed(maxEntries, m, other);
            Has(r, key) ==> IndexOf(r, key) < IndexOf(m, key) || (IndexOf(r, key) == IndexOf(m, key) && |r| == |m| + 1)
  {
    var more, i := m + [(other, Window(0, 1, 0))], IndexOf(m, key);
    var r := Pushed(maxEntries, m, other);
    PushedTied(maxEntries, m, other);
    HasIff(m, other);
    assert more[i].0 == key;
    var cut := |more| - |r|;
    assert r == more[cut..];
    if Has(r, key) {
      var j := IndexOf(r, key);
      assert more[cut + j].0 == key;
      assert cut + j < |m|;
      assert m[cut + j].0 == key;
      assert i == cut + j;
    }
  }

  lemma {:induction false} DriveOut(cfg: Config, key: string, before: seq<Call>, m: Dict<string, Window>, n: nat)
    returns (calls: seq<Call>, r: Dict<string, Window>)
    requires cfg.perMinute >= 1 && Led(cfg, key, before, m, n)
    ensures Led(cfg, key, calls, r, n) && !Has(r, key)
    decreases if Has(m, key) then IndexOf(m, key) + 1 else 0, cfg.maxEntries - |m|
  {
    if !Has(m, key) {
      calls, r := before, m;
    } else {
      var other := Stranger(m, key);
      var more := LedOn(cfg, key, before, m, n, other, n);
      PushedNearer(cfg.maxEntries, m, other, key);
      calls, r := DriveOut(cfg, key, more, Pushed(cfg.maxEntries, m, other), n);
    }
  }

  lemma {:induction false} NobodyLed(cfg: Config, key: string)
    ensures Led(cfg, key, [], [], 0)
  {
  }

  /** One more call of the key, and the calls that drive it out again. */
  lemma {:induction false} LetInOnce(cfg: Config, key: string, before: seq<Call>, m: Dict<string, Window>, n: nat,
                                     more: nat)
    returns (calls: seq<Call>, r: Dict<string, Window>)
    requires cfg.perMinute >= 1 && Led(cfg, key, before, m, n) && !Has(m, key) && more == n + 1
    ensures Led(cfg, key, calls, r, more) && !Has(r, key)
  {
    var next := LedOn(cfg, key, before, m, n, key, more);
    calls, r := DriveOut(cfg, key, next, Pushed(cfg.maxEntries, m, key), more);
  }

  lemma {:induction false} LetIn(cfg: Config, key: string, n: nat) returns (calls: seq<Call>, m: Dict<string, Window>)
    requires cfg.perMinute >= 1
    ensures Led(cfg, key, calls, m, n) && !Has(m, key)
  {
    if n == 0 {
      NobodyLed(cfg, key);
      calls, m := [], [];
    } else {
      var before, was := LetIn(cfg, key, n - 1);
      calls, m := LetInOnce(cfg, key, before, was, n - 1, n);
    }
  }

  /** Main result.  Without the premise there is no bound at all: whatever the limit and however large the
      map, enough calls of other keys let any number of calls of one key through at one moment. */
  lemma {:induction false} EvictionVoidsBound(cfg: Config, key: string, n: nat) returns (calls: seq<Call>)
    requires cfg.perMinute >= 1
    ensures NonDecreasing(calls) && (forall i :: 0 <= i < |calls| ==> calls[i].now == 0)
    ensures LetThrough(cfg, calls, key, 0) == n
  {
    var m;
    calls, m := LetIn(cfg, key, n);
    AtZeroAscends(calls);
  }

  // ---------- the limiter object ----------

  /** Removing the key at a place closes the gap. */
  lemma RemoveAt(m: Dict<string, Window>, i: nat)
    requires Unique(m) && i < |m|
    ensures var r := Remove(m, m[i].0);
            Unique(r) && |r| == |m| - 1 && r[..i] == m[..i] && r[i..] == m[i + 1..]
  {
    IndexOfUnique(m, i);
    RemoveFacts(m, m[i].0);
  }

  class FixedWindowRateLimiter {
    const cfg: Config
    var windows: Dict<string, Window>
    var calls: nat

    ghost predicate Valid()
      reads this
    {
      Unique(windows)
    }

    constructor (cfg: Config)
      ensures Valid() && windows == [] && calls == 0 && this.cfg == cfg
    {
      this.cfg := cfg;
      windows, calls := [], 0;
    }

    /** Deletes the windows that have expired. */
    method Expire(now: int)
      requires Valid()
      modifies `windows
      ensures Valid() && windows == Unexpired(old(windows), now)
    {
      var i := 0;
      assert windows[0..] == windows;
      while i < |windows|
        invariant 0 <= i <= |windows| && Valid()
        invariant Unexpired(old(windows), now) == windows[..i] + Unexpired(windows[i..], now)
        decreases |windows| - i
      {
        var (k, w) := windows[i];
        assert windows[i..][1..] == windows[i + 1..];
        if now - w.lastSeen >= MINUTE {
          RemoveAt(windows, i);
          windows := Remove(windows, k);
        } else {
          i := i + 1;
          assert windows[..i] == windows[..i - 1] + [windows[i - 1]];
        }
      }
      assert windows[..i] + [] == windows;
    }

    /** The deletion loop of an eviction. */
    method Cut(oldest: seq<Keyed<string>>, excess: nat)
      requires excess <= |oldest|
      modifies `windows
      ensures windows == RemoveKeyed(old(windows), oldest[..excess])
    {
      for i := 0 to excess
        invariant windows == RemoveKeyed(old(windows), oldest[..i])
      {
        assert oldest[..i + 1][..i] == oldest[..i];
        windows := Remove(windows, oldest[i].item);
      }
    }

    method Prune(now: int, force: bool)
      requires Valid()
      modifies `windows
      ensures Valid()
      ensures windows == if force then Evicted(old(windows), now, cfg.maxEntries) else Unexpired(old(windows), now)
    {
      Expire(now);
      if !force || |windows| <= cfg.maxEntries {
        return;
      }
      ghost var live := windows;
      var oldest := Sort(ByLastSeen(windows));
      SortFacts(ByLastSeen(windows));
      var excess := |oldest| - Target(cfg.maxEntries);
      VictimShape(live, cfg.maxEntries);
      VictimFacts(live, cfg.maxEntries);
      assert oldest[..excess] == Victims(live, cfg.maxEntries);
      Cut(oldest, excess);
    }

    method Allow(c: Call) returns (v: Verdict)
      requires Valid()
      modifies this
      ensures Valid()
      ensures (State(windows, calls), v) == Allowed(cfg, State(old(windows), old(calls)), c)
    {
      ghost var s := State(windows, calls);
      calls := calls + 1;
      if calls % 1024 == 0 {
        Prune(c.now, false);
      }
      assert windows == Pruned(s, c.now);
      var x := Get(windows, c.key);
      var w := if x.None? || c.now - x.value.start >= MINUTE then Window(c.now, 0, c.now) else x.value;
      w := w.(count := w.count + 1, lastSeen := c.now);
      PutFacts(windows, c.key, w);
      windows := Put(windows, c.key, w);
      assert windows == Touched(s, c.key, c.now);
      if |windows| > cfg.maxEntries {
        Prune(c.now, true);
      }
      v := Judge(w, c.now, cfg.perMinute);
    }
  }
}
