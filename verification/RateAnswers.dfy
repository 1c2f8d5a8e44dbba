/** What the rate limiter of src/server/rate-limit.ts answers, read off the times of a key's calls
    alone, and what the two numbers in an answer promise. */
module RateAnswers {
  import opened Collections
  import opened RateLimit

  /** The times at which a key called. */
  function Times(calls: seq<Call>, key: string): seq<int>
    decreases |calls|
  {
    if calls == [] then [] else
    var before, c := calls[..|calls| - 1], calls[|calls| - 1];
    Times(before, key) + if c.key == key then [c.now] else []
  }

  /** Which of the calls opened the minute that counts the last one: the first call opens one, and so
      does every call that comes a minute or more after the call that opened the minute before. */
  function Opener(times: seq<int>): (k: nat)
    requires times != []
    ensures k < |times|
    decreases |times|
  {
    var last := |times| - 1;
    if last == 0 then 0 else
    var k := Opener(times[..last]);
    if times[last] - times[k] >= 60000 then last else k
  }

  /** How many calls the current minute has counted. */
  function Used(times: seq<int>): nat
    requires times != []
  {
    |times| - Opener(times)
  }

  /** The window the times of a key amount to. */
  function WindowOf(times: seq<int>): Option<Window> {
    if times == [] then None else Some(Window(times[Opener(times)], Used(times), times[|times| - 1]))
  }

  lemma {:induction false} WindowNext(times: seq<int>, now: int)
    ensures WindowOf(times + [now]) == Some(Counted(WindowOf(times), now))
  {
    var all := times + [now];
    assert all[..|times|] == times;
  }

  lemma {:induction false} IdealIsWindow(calls: seq<Call>, key: string)
    ensures Ideal(calls, key) == WindowOf(Times(calls, key))
    decreases |calls|
  {
    if calls != [] {
      var before, c := calls[..|calls| - 1], calls[|calls| - 1];
      IdealIsWindow(before, key);
      WindowNext(Times(before, key), c.now);
      assert Times(before, key) + [] == Times(before, key);
    }
  }

  /** The calls of a key, this one included. */
  function TimesNow(calls: seq<Call>, c: Call): (times: seq<int>)
    ensures times != []
  {
    Times(calls, c.key) + [c.now]
  }

  /** Main result.  Of the calls its current minute has counted a key gets the first perMinute through;
      each answer says how many more that minute has left and when a minute from its first call is over.
      This holds for every run that evicts no live window of the key, whatever is pruned and whoever
      else calls. */
  lemma {:induction false} AnswerIsExact(cfg: Config, calls: seq<Call>, c: Call)
    requires NonDecreasing(calls + [c]) && KeySpared(cfg, calls, c.key)
    ensures var times, v := TimesNow(calls, c), Allowed(cfg, Run(cfg, calls), c).1;
            && (v.ok <==> Used(times) <= cfg.perMinute)
            && v.remaining == (if Used(times) <= cfg.perMinute then cfg.perMinute - Used(times) else 0)
            && v.resetMs == times[Opener(times)] + 60000 - c.now
            && 0 < v.resetMs <= 60000
  {
    PruningIsInvisible(cfg, calls, c);
    IdealIsWindow(calls, c.key);
    WindowNext(Times(calls, c.key), c.now);
    OpenerIsRecent(calls, c);
  }

  lemma {:induction false} TimesAscend(calls: seq<Call>, key: string)
    requires NonDecreasing(calls)
    ensures forall i, j :: 0 <= i < j < |Times(calls, key)| ==> Times(calls, key)[i] <= Times(calls, key)[j]
    ensures calls != [] ==> forall i :: 0 <= i < |Times(calls, key)| ==>
                            Times(calls, key)[i] <= calls[|calls| - 1].now
    decreases |calls|
  {
    if calls != [] {
      TimesAscend(calls[..|calls| - 1], key);
    }
  }

  lemma OpenerIsRecent(calls: seq<Call>, c: Call)
    requires NonDecreasing(calls + [c])
    ensures var times := TimesNow(calls, c); 0 <= c.now - times[Opener(times)] < 60000
  {
    var times := TimesNow(calls, c);
    NonDecreasingInit(calls, c);
    TimesAscend(calls, c.key);
    assert times[..|times| - 1] == Times(calls, c.key);
  }

  // ---------- what an answer promises ----------

  /** How many of these calls are the key's. */
  function CallsOf(calls: seq<Call>, key: string): nat {
    |Times(calls, key)|
  }

  lemma {:induction false} TimesConcat(a: seq<Call>, b: seq<Call>, key: string)
    ensures Times(a + b, key) == Times(a, key) + Times(b, key)
    decreases |b|
  {
    if b == [] {
      assert a + b == a;
    } else {
      var init, last := b[..|b| - 1], b[|b| - 1];
      TimesConcat(a, init, key);
      assert (a + b)[..|a + b| - 1] == a + init;
      assert (a + b)[|a + b| - 1] == last;
      ConcatAssociates(Times(a, key), Times(init, key), if last.key == key then [last.now] else []);
    }
  }

  /** Calls that come before the minute is over stay in it. */
  lemma {:induction false} OpenerStays(times: seq<int>, more: seq<int>)
    requires times != []
    requires forall i :: 0 <= i < |more| ==> more[i] - times[Opener(times)] < 60000
    ensures Opener(times + more) == Opener(times)
    decreases |more|
  {
    var all := times + more;
    if more == [] {
      assert all == times;
    } else {
      var init := more[..|more| - 1];
      OpenerStays(times, init);
      assert all[..|all| - 1] == times + init;
      assert all[|all| - 1] == more[|more| - 1];
    }
  }

  lemma {:induction false} TimesWithin(calls: seq<Call>, key: string, from: int, to: int)
    requires forall i :: 0 <= i < |calls| ==> from <= calls[i].now <= to
    ensures forall i :: 0 <= i < |Times(calls, key)| ==> from <= Times(calls, key)[i] <= to
    decreases |calls|
  {
    if calls != [] {
      TimesWithin(calls[..|calls| - 1], key, from, to);
    }
  }

  /** Two calls of a key with others, of any keys, in between. */
  predicate Follows(before: seq<Call>, c: Call, more: seq<Call>, d: Call) {
    d.key == c.key && NonDecreasing(before + [c] + more + [d])
  }

  lemma {:induction false} FollowsFacts(before: seq<Call>, c: Call, more: seq<Call>, d: Call)
    requires Follows(before, c, more, d)
    ensures NonDecreasing(before + [c])
    ensures forall i :: 0 <= i < |more| ==> c.now <= more[i].now <= d.now
    ensures c.now <= d.now
  {
    var head, all := before + [c], before + [c] + more + [d];
    var n, last := |before|, |before| + 1 + |more|;
    assert forall i :: 0 <= i < |head| ==> all[i] == head[i];
    assert all[n] == c && all[last] == d;
    forall i | 0 <= i < |more| ensures c.now <= more[i].now <= d.now {
      assert all[n + 1 + i] == more[i];
    }
  }

  lemma {:induction false} LaterTimes(before: seq<Call>, c: Call, more: seq<Call>, d: Call)
    requires Follows(before, c, more, d)
    ensures TimesNow(before + [c] + more, d) == TimesNow(before, c) + TimesNow(more, d)
    ensures forall i :: 0 <= i < |TimesNow(more, d)| ==> TimesNow(more, d)[i] <= d.now
  {
    FollowsFacts(before, c, more, d);
    TimesConcat(before + [c], more, c.key);
    assert (before + [c])[..|before|] == before;
    ConcatAssociates(TimesNow(before, c), Times(more, c.key), [d.now]);
    TimesWithin(more, d.key, c.now, d.now);
  }

  lemma {:induction false} SparedBefore(cfg: Config, before: seq<Call>, more: seq<Call>, key: string)
    requires KeySpared(cfg, before + more, key)
    ensures KeySpared(cfg, before, key)
    decreases |more|
  {
    if more == [] {
      assert before + more == before;
    } else {
      assert (before + more)[..|before + more| - 1] == before + more[..|more| - 1];
      SparedBefore(cfg, before, more[..|more| - 1], key);
    }
  }

  /** When the minute of the first call is over at the last one, that one opens a new minute. */
  lemma {:induction false} NewMinute(times: seq<int>, now: int)
    requires times != [] && now - times[Opener(times)] >= 60000
    ensures Opener(times + [now]) == |times|
  {
    assert (times + [now])[..|times|] == times;
  }

  /** Main result.  The numbers in an answer are exact promises.  Until resetMs have passed the key's later
      calls are let through exactly while fewer than `remaining` have come since; and the first call of
      the key after that starts a full new minute. */
  lemma {:induction false} PromiseIsKept(cfg: Config, before: seq<Call>, c: Call, more: seq<Call>, d: Call)
    requires Follows(before, c, more, d) && KeySpared(cfg, before + [c] + more, c.key)
    ensures var v := Allowed(cfg, Run(cfg, before), c).1;
            var u := Allowed(cfg, Run(cfg, before + [c] + more), d).1;
            && (d.now < c.now + v.resetMs ==>
                  (u.ok <==> CallsOf(more, c.key) < v.remaining) && u.resetMs == v.resetMs - (d.now - c.now))
            && (d.now >= c.now + v.resetMs && CallsOf(more, c.key) == 0 ==>
                  (u.ok <==> cfg.perMinute > 0) && u.resetMs == 60000)
  {
    FollowsFacts(before, c, more, d);
    SparedBefore(cfg, before + [c], more, c.key);
    SparedBefore(cfg, before, [c], c.key);
    AnswerIsExact(cfg, before, c);
    AnswerIsExact(cfg, before + [c] + more, d);
    LaterTimes(before, c, more, d);
    var times, since := TimesNow(before, c), TimesNow(more, d);
    if d.now < times[Opener(times)] + 60000 {
      OpenerStays(times, since);
    } else if CallsOf(more, c.key) == 0 {
      assert since == [d.now];
      NewMinute(times, d.now);
    }
  }

  // ---------- what is kept ----------

  /** Every 1024th call leaves only windows seen within the last minute, whatever the clock does. */
  lemma {:induction false} EveryPruneForgets(cfg: Config, calls: seq<Call>, c: Call, key: string)
    requires (|calls| + 1) % 1024 == 0
    ensures var w := Get(Run(cfg, calls + [c]).windows, key); w.Some? ==> c.now - w.value.lastSeen < 60000
  {
    RunNext(cfg, calls, c, key);
    MapIsBounded(cfg, calls);
    CallsCounted(cfg, calls);
    TouchedAfterPrune(Run(cfg, calls), c, key);
    var touched := Touched(Run(cfg, calls), c.key, c.now);
    EvictedGet(touched, c.now, cfg.maxEntries, key);
    UnexpiredGet(touched, c.now, key);
  }

  lemma {:induction false} TouchedAfterPrune(s: State, c: Call, key: string)
    requires Unique(s.windows) && (s.calls + 1) % 1024 == 0
    ensures Unique(Touched(s, c.key, c.now))
    ensures var w := Get(Touched(s, c.key, c.now), key); w.Some? ==> c.now - w.value.lastSeen < 60000
  {
    UnexpiredUnique(s.windows, c.now);
    UnexpiredGet(s.windows, c.now, key);
    PutFacts(Pruned(s, c.now), c.key, Counted(Get(Pruned(s, c.now), c.key), c.now));
  }

  lemma {:induction false} CallsCounted(cfg: Config, calls: seq<Call>)
    ensures Run(cfg, calls).calls == |calls|
    decreases |calls|
  {
    if calls != [] {
      CallsCounted(cfg, calls[..|calls| - 1]);
    }
  }
}
