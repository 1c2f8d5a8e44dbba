/** What pruning does to the deduplicator: the entry count is exact, and the hard cap evicts exactly the
    oldest. */
module DedupPruning {
  import opened Collections
  import opened Sorting
  import opened Deduplication
  import opened DedupCounting

  // ---------- accounting ----------

  /** How many occurrences of the list carry the serial. */
  function Times(list: seq<Occurrence>, serial: nat): nat
    decreases |list|
  {
    if list == [] then 0
    else Times(list[..|list| - 1], serial) + if list[|list| - 1].serial == serial then 1 else 0
  }

  lemma {:induction false} TimesConcat(a: seq<Occurrence>, b: seq<Occurrence>, serial: nat)
    ensures Times(a + b, serial) == Times(a, serial) + Times(b, serial)
    decreases |b|
  {
    if b == [] {
      assert a + b == a;
    } else {
      TimesConcat(a, b[..|b| - 1], serial);
      assert (a + b)[..|a + b| - 1] == a + b[..|b| - 1];
    }
  }

  lemma FlattenAppend(m: Dict<Key, seq<Occurrence>>, k: Key, list: seq<Occurrence>)
    ensures Flatten(m + [(k, list)]) == Flatten(m) + list
  {
    assert (m + [(k, list)])[..|m|] == m;
  }

  lemma {:induction false} TimesUpdate(m: Dict<Key, seq<Occurrence>>, i: nat, k: Key, list: seq<Occurrence>,
                                       serial: nat)
    requires i < |m|
    ensures Times(Flatten(m[i := (k, list)]), serial) + Times(m[i].1, serial)
            == Times(Flatten(m), serial) + Times(list, serial)
    ensures Total(m[i := (k, list)]) + |m[i].1| == Total(m) + |list|
    decreases |m|
  {
    var n := |m| - 1;
    TimesConcat(Flatten(m[..n]), m[n].1, serial);
    if i < n {
      TimesUpdate(m[..n], i, k, list, serial);
      assert m[i := (k, list)][..n] == m[..n][i := (k, list)];
      TimesConcat(Flatten(m[..n][i := (k, list)]), m[n].1, serial);
    } else {
      assert m[i := (k, list)][..n] == m[..n];
      TimesConcat(Flatten(m[..n]), list, serial);
    }
  }

  /** Storing a list replaces the one that was there. */
  lemma TimesPut(m: Dict<Key, seq<Occurrence>>, k: Key, list: seq<Occurrence>, serial: nat)
    ensures Times(Flatten(Put(m, k, list)), serial) + Times(ListFor(m, k), serial)
            == Times(Flatten(m), serial) + Times(list, serial)
    ensures Total(Put(m, k, list)) + |ListFor(m, k)| == Total(m) + |list|
  {
    var i := IndexOf(m, k);
    if i < |m| {
      TimesUpdate(m, i, k, list, serial);
    } else {
      FlattenAppend(m, k, list);
      TimesConcat(Flatten(m), list, serial);
    }
  }

  lemma {:induction false} TouchTimes(list: seq<Occurrence>, w: Wanted, source: string, now: int, ttlMs: nat,
                                      serial: nat)
    ensures var r := TouchLast(list, w, source, now, ttlMs); r.Some? ==> Times(r.value, serial) == Times(list, serial)
    decreases |list|
  {
    if list != [] {
      var init := list[..|list| - 1];
      TouchTimes(init, w, source, now, ttlMs, serial);
      var r := TouchLast(list, w, source, now, ttlMs);
      if r.Some? {
        assert r.value[..|init|] == if Fits(w, list[|list| - 1], now, ttlMs) then init
            else TouchLast(init, w, source, now, ttlMs).value;
      }
    }
  }

  lemma MatchedTimes(list: seq<Occurrence>, e: Event, now: int, ttlMs: nat, given: nat, serial: nat)
    ensures var (after, accepted) := Matched(list, e, now, ttlMs, given);
            && Times(after, serial) == Times(list, serial) + (if accepted && serial == given then 1 else 0)
            && |after| == |list| + (if accepted then 1 else 0)
  {
    TouchTimes(list, Exact(e.providerEventId), e.source, now, ttlMs, serial);
    TouchTimes(list, Unseen(e.source), e.source, now, ttlMs, serial);
    assert (list + [Created(e, now, given)])[..|list|] == list;
  }

  lemma KeptStep(list: seq<Occurrence>, rule: Rule)
    requires list != []
    ensures var init, last := list[..|list| - 1], list[|list| - 1];
            Kept(list, rule) == if Keeps(rule, last) then Kept(init, rule) + [last] else Kept(init, rule)
  {
  }

  lemma KeptSnoc(init: seq<Occurrence>, last: Occurrence, rule: Rule)
    ensures Kept(init + [last], rule) == if Keeps(rule, last) then Kept(init, rule) + [last] else Kept(init, rule)
  {
    assert (init + [last])[..|init|] == init;
    KeptStep(init + [last], rule);
  }

  lemma {:induction false} KeptTimes(list: seq<Occurrence>, rule: Rule, serial: nat)
    ensures Times(Kept(list, rule), serial) <= Times(list, serial)
    decreases |list|
  {
    if list != [] {
      var last := list[|list| - 1];
      KeptTimes(list[..|list| - 1], rule, serial);
      KeptStep(list, rule);
      TimesConcat(Kept(list[..|list| - 1], rule), [last], serial);
      assert Times([last], serial) == if last.serial == serial then 1 else 0;
    }
  }

  lemma {:induction false} KeptConcat(a: seq<Occurrence>, b: seq<Occurrence>, rule: Rule)
    ensures Kept(a + b, rule) == Kept(a, rule) + Kept(b, rule)
    decreases |b|
  {
    if b == [] {
      assert a + b == a;
    } else {
      var init, last := b[..|b| - 1], b[|b| - 1];
      KeptConcat(a, init, rule);
      assert b == init + [last] && a + b == a + init + [last];
      KeptSnocBoth(a + init, init, last, rule, Kept(a, rule));
    }
  }

  lemma KeptSnocBoth(whole: seq<Occurrence>, part: seq<Occurrence>, last: Occurrence, rule: Rule,
                     before: seq<Occurrence>)
    requires Kept(whole, rule) == before + Kept(part, rule)
    ensures Kept(whole + [last], rule) == before + Kept(part + [last], rule)
  {
    KeptSnoc(part, last, rule);
    KeptSnoc(whole, last, rule);
    ConcatAssociates(before, Kept(part, rule), [last]);
  }

  /** Filtering list by list is filtering everything. */
  lemma {:induction false} FlattenKept(m: Dict<Key, seq<Occurrence>>, rule: Rule)
    ensures Flatten(KeptAll(m, rule)) == Kept(Flatten(m), rule)
    decreases |m|
  {
    if m != [] {
      var init := m[..|m| - 1];
      var (k, list) := m[|m| - 1];
      FlattenKept(init, rule);
      KeptConcat(Flatten(init), list, rule);
      FlattenAppend(KeptAll(init, rule), k, Kept(list, rule));
      assert Kept(list, rule) == [] ==> KeptAll(m, rule) == KeptAll(init, rule);
    }
  }

  /** Every serial is used once, and was given out before. */
  ghost predicate Numbered(list: seq<Occurrence>, calls: nat) {
    forall x: nat :: Times(list, x) <= 1 && (Times(list, x) == 1 ==> x < calls)
  }

  lemma {:induction false} ListedTimes(list: seq<Occurrence>, i: nat)
    requires i < |list|
    ensures Times(list, list[i].serial) > 0
    decreases |list|
  {
    if i < |list| - 1 {
      ListedTimes(list[..|list| - 1], i);
    }
  }

  lemma {:induction false} NumberedInit(list: seq<Occurrence>, calls: nat)
    requires list != [] && Numbered(list, calls)
    ensures Numbered(list[..|list| - 1], calls) && Times(list[..|list| - 1], list[|list| - 1].serial) == 0
  {
    var init := list[..|list| - 1];
    forall x: nat ensures Times(init, x) <= Times(list, x) {
    }
    assert Times(list, list[|list| - 1].serial) <= 1;
  }

  lemma {:induction false} NumberedDistinct(list: seq<Occurrence>, calls: nat)
    requires Numbered(list, calls)
    ensures DistinctItems(Ranked(list))
    decreases |list|
  {
    if list != [] {
      var init := list[..|list| - 1];
      NumberedInit(list, calls);
      NumberedDistinct(init, calls);
      forall i | 0 <= i < |init| ensures Ranked(list)[i].item != list[|list| - 1].serial {
        ListedTimes(init, i);
      }
      assert forall i :: 0 <= i < |init| ==> Ranked(list)[i] == Ranked(init)[i];
    }
  }

  // ---------- the hard cap ----------

  lemma {:induction false} ItemsCount(s: seq<Keyed<nat>>, n: nat)
    requires DistinctItems(s) && n <= |s|
    ensures |Items(s, n)| == n
    decreases n
  {
    if n > 0 {
      ItemsCount(s, n - 1);
      assert Items(s, n) == Items(s, n - 1) + {s[n - 1].item};
    } else {
      assert Items(s, n) == {};
    }
  }

  /** Dropping distinct listed serials shortens the list by their number. */
  lemma {:induction false} KeptNotAmongCount(list: seq<Occurrence>, drop: set<nat>, calls: nat)
    requires Numbered(list, calls) && forall x :: x in drop ==> Times(list, x) > 0
    ensures |Kept(list, NotAmong(drop))| == |list| - |drop|
    decreases |list|
  {
    if list == [] {
      assert drop == {};
    } else {
      var init, last := list[..|list| - 1], list[|list| - 1];
      NumberedInit(list, calls);
      KeptNotAmongCount(init, drop - {last.serial}, calls);
      KeptIgnores(init, drop, last.serial);
    }
  }

  lemma {:induction false} KeptIgnores(list: seq<Occurrence>, drop: set<nat>, serial: nat)
    requires Times(list, serial) == 0
    ensures Kept(list, NotAmong(drop)) == Kept(list, NotAmong(drop - {serial}))
    decreases |list|
  {
    if list != [] {
      KeptIgnores(list[..|list| - 1], drop, serial);
    }
  }

  lemma {:induction false} OldestListed(list: seq<Occurrence>, n: nat, x: nat)
    requires x in Oldest(list, n)
    ensures Times(list, x) > 0
  {
    var s := Sort(Ranked(list));
    var i :| 0 <= i < |s| && s[i].item == x;
    SortMembers(Ranked(list), s[i]);
    var j :| 0 <= j < |list| && Ranked(list)[j] == s[i];
    ListedTimes(list, j);
  }

  /** The serials that the hard cap removes: as many as asked, all of them listed. */
  lemma {:induction false} OldestFacts(list: seq<Occurrence>, n: nat, calls: nat)
    requires Numbered(list, calls) && n <= |list|
    ensures |Oldest(list, n)| == n && forall x :: x in Oldest(list, n) ==> Times(list, x) > 0
  {
    SortFacts(Ranked(list));
    NumberedDistinct(list, calls);
    SortDistinct(Ranked(list));
    ItemsCount(Sort(Ranked(list)), n);
    assert Oldest(list, n) == Items(Sort(Ranked(list)), n);
    forall x | x in Oldest(list, n) ensures Times(list, x) > 0 {
      OldestListed(list, n, x);
    }
  }

  /** No occurrence that stays was last seen before one that goes. */
  lemma OldestAreOldest(list: seq<Occurrence>, n: nat, stays: nat, goes: nat)
    requires stays < |list| && goes < |list|
    requires list[stays].serial !in Oldest(list, n) && list[goes].serial in Oldest(list, n)
    requires DistinctItems(Ranked(list))
    ensures list[goes].lastSeen <= list[stays].lastSeen
  {
    var s := Sort(Ranked(list));
    SortFacts(Ranked(list));
    var g :| 0 <= g < |s| && g < n && s[g].item == list[goes].serial;
    SortMembers(Ranked(list), s[g]);
    var j :| 0 <= j < |list| && Ranked(list)[j] == s[g];
    assert Ranked(list)[j].item == Ranked(list)[goes].item;
    assert j == goes;
    SortMembers(Ranked(list), Ranked(list)[stays]);
    var k :| 0 <= k < |s| && s[k] == Ranked(list)[stays];
    assert k >= n;
  }

  // ---------- accounting over runs ----------

  ghost predicate Accounted(s: State) {
    && Unique(s.occurrences) && s.entryCount == Total(s.occurrences)
    && Numbered(Flatten(s.occurrences), s.calls)
  }

  lemma {:induction false} KeptAllKeys(m: Dict<Key, seq<Occurrence>>, rule: Rule, k: Key)
    ensures k in Keys(KeptAll(m, rule)) ==> k in Keys(m)
    decreases |m|
  {
    if m != [] {
      KeptAllKeys(m[..|m| - 1], rule, k);
      assert Keys(m) == Keys(m[..|m| - 1]) + [m[|m| - 1].0];
      assert Kept(m[|m| - 1].1, rule) != [] ==>
          Keys(KeptAll(m, rule)) == Keys(KeptAll(m[..|m| - 1], rule)) + [m[|m| - 1].0];
    }
  }

  lemma {:induction false} KeptAllUnique(m: Dict<Key, seq<Occurrence>>, rule: Rule)
    requires Unique(m)
    ensures Unique(KeptAll(m, rule))
    decreases |m|
  {
    if m != [] {
      var init := m[..|m| - 1];
      KeptAllUnique(init, rule);
      forall i | 0 <= i < |KeptAll(init, rule)| ensures KeptAll(init, rule)[i].0 != m[|m| - 1].0 {
        KeptAllKeys(init, rule, KeptAll(init, rule)[i].0);
        assert Keys(KeptAll(init, rule))[i] in Keys(init);
      }
    }
  }

  lemma KeptAllNumbered(m: Dict<Key, seq<Occurrence>>, rule: Rule, calls: nat)
    requires Numbered(Flatten(m), calls)
    ensures Numbered(Flatten(KeptAll(m, rule)), calls) && Total(KeptAll(m, rule)) <= Total(m)
  {
    FlattenKept(m, rule);
    forall x: nat ensures Times(Kept(Flatten(m), rule), x) <= Times(Flatten(m), x) {
      KeptTimes(Flatten(m), rule, x);
    }
  }

  /** What stays after the expired occurrences are gone. */
  function Live(cfg: Config, s: State, now: int): Dict<Key, seq<Occurrence>> {
    KeptAll(s.occurrences, SeenSince(now - cfg.ttlMs))
  }

  /** The hard cap fires. */
  predicate Evicts(cfg: Config, s: State, now: int) {
    PruneDue(cfg, s, now) && Total(Live(cfg, s, now)) > cfg.maxEntries
  }

  /** The serials the hard cap then removes. */
  function Evicted(cfg: Config, live: Dict<Key, seq<Occurrence>>): set<nat>
    requires Total(live) > cfg.maxEntries
  {
    Oldest(Flatten(live), Total(live) - Target(cfg.maxEntries))
  }

  lemma HardCapAccounted(cfg: Config, live: Dict<Key, seq<Occurrence>>, calls: nat)
    requires Unique(live) && Numbered(Flatten(live), calls) && Total(live) > cfg.maxEntries
    ensures var rest := KeptAll(live, NotAmong(Evicted(cfg, live)));
            Unique(rest) && Numbered(Flatten(rest), calls) && Total(rest) == Target(cfg.maxEntries)
  {
    var drop := Evicted(cfg, live);
    OldestFacts(Flatten(live), Total(live) - Target(cfg.maxEntries), calls);
    KeptAllUnique(live, NotAmong(drop));
    KeptAllNumbered(live, NotAmong(drop), calls);
    FlattenKept(live, NotAmong(drop));
    KeptNotAmongCount(Flatten(live), drop, calls);
  }

  lemma LiveAccounted(cfg: Config, s: State, now: int)
    requires Accounted(s)
    ensures var live := Live(cfg, s, now);
            Unique(live) && Numbered(Flatten(live), s.calls) && Total(live) <= Total(s.occurrences)
  {
    var m, rule := s.occurrences, SeenSince(now - cfg.ttlMs);
    KeptAllUnique(m, rule);
    KeptAllNumbered(m, rule, s.calls);
    assert Live(cfg, s, now) == KeptAll(m, rule);
  }

  lemma RefreshAccounted(cfg: Config, s: State, now: int)
    requires Accounted(s)
    ensures Accounted(Refreshed(cfg, s, now)) && Refreshed(cfg, s, now).calls == s.calls
    ensures Refreshed(cfg, s, now).entryCount <= cfg.maxEntries && Refreshed(cfg, s, now).entryCount <= s.entryCount
  {
    if PruneDue(cfg, s, now) && !(s.entryCount <= cfg.maxEntries && s.entryCount < 1000) {
      LiveAccounted(cfg, s, now);
      var live := Live(cfg, s, now);
      if Total(live) > cfg.maxEntries {
        PrunedEvicts(cfg, s, now);
        HardCapAccounted(cfg, live, s.calls);
      }
    }
  }

  lemma PrunedEvicts(cfg: Config, s: State, now: int)
    requires s.entryCount == Total(s.occurrences)
    requires !(s.entryCount <= cfg.maxEntries && s.entryCount < 1000) && Total(Live(cfg, s, now)) > cfg.maxEntries
    ensures var live := Live(cfg, s, now);
            var rest := KeptAll(live, NotAmong(Evicted(cfg, live)));
            Pruned(cfg, s, now) == s.(occurrences := rest, entryCount := Total(rest))
  {
    var m := Live(cfg, s, now);
    var live := KeptOnly(s, SeenSince(now - cfg.ttlMs));
    assert live == s.(occurrences := m, entryCount := Total(m));
    assert Excess(live.entryCount, cfg.maxEntries) == Total(m) - Target(cfg.maxEntries);
    var rule := NotAmong(Evicted(cfg, m));
    assert KeptOnly(live, rule) == s.(occurrences := KeptAll(m, rule), entryCount := Total(KeptAll(m, rule)));
  }

  lemma AcceptAccounted(cfg: Config, s: State, e: Event, now: int)
    requires Accounted(s)
    ensures var after := Accepted(cfg, s, e, now).0;
            Accounted(after) && after.entryCount <= cfg.maxEntries + 1 && after.entryCount <= s.entryCount + 1
  {
    RefreshAccounted(cfg, s, now);
    var t := Refreshed(cfg, s, now);
    var k := Identity(e);
    var (list, isNew) := Matched(ListFor(t.occurrences, k), e, now, cfg.ttlMs, s.calls);
    PutFacts(t.occurrences, k, list);
    forall x: nat ensures
      var after := Flatten(Put(t.occurrences, k, list));
      && Times(after, x) == Times(Flatten(t.occurrences), x) + (if isNew && x == s.calls then 1 else 0)
      && |after| == t.entryCount + (if isNew then 1 else 0)
    {
      MatchedTimes(ListFor(t.occurrences, k), e, now, cfg.ttlMs, s.calls, x);
      TimesPut(t.occurrences, k, list, x);
    }
    assert Times(Flatten(Put(t.occurrences, k, list)), 0) >= 0;
  }

  /** Main result.  After any run, with whatever clock, `entryCount` is the number of occurrences held
      and exceeds the limit by at most one; each occurrence is listed once. */
  lemma {:induction false} CountIsExact(cfg: Config, history: seq<Arrival>)
    ensures Accounted(Run(cfg, history)) && Run(cfg, history).calls == |history|
    ensures Run(cfg, history).entryCount <= cfg.maxEntries + 1 && Run(cfg, history).entryCount <= |history|
    decreases |history|
  {
    if history != [] {
      CountIsExact(cfg, history[..|history| - 1]);
      AcceptAccounted(cfg, Run(cfg, history[..|history| - 1]), history[|history| - 1].event,
          history[|history| - 1].now);
    }
  }

  /** Main result.  When the hard cap fires, four fifths of the limit stay, rounded down, and none of those
      that stay was last seen before one that goes. */
  lemma {:induction false} HardCapKeepsNewest(cfg: Config, history: seq<Arrival>, now: int, stays: nat, goes: nat)
    requires Evicts(cfg, Run(cfg, history), now)
    requires var live := Flatten(Live(cfg, Run(cfg, history), now));
             stays < |live| && goes < |live|
    ensures var s := Run(cfg, history);
            var live := Flatten(Live(cfg, s, now));
            var rest := Flatten(Refreshed(cfg, s, now).occurrences);
            && 5 * |rest| <= 4 * cfg.maxEntries < 5 * |rest| + 5
            && (Times(rest, live[stays].serial) == 1 && Times(rest, live[goes].serial) == 0 ==>
                  live[goes].lastSeen <= live[stays].lastSeen)
  {
    var s := Run(cfg, history);
    CountIsExact(cfg, history);
    LiveAccounted(cfg, s, now);
    PrunedEvicts(cfg, s, now);
    var live := Live(cfg, s, now);
    HardCapAccounted(cfg, live, s.calls);
    var drop := Evicted(cfg, live);
    FlattenKept(live, NotAmong(drop));
    KeptTimesExactly(Flatten(live), drop, Flatten(live)[stays].serial);
    KeptTimesExactly(Flatten(live), drop, Flatten(live)[goes].serial);
    ListedTimes(Flatten(live), stays);
    ListedTimes(Flatten(live), goes);
    NumberedDistinct(Flatten(live), s.calls);
    if Flatten(live)[stays].serial !in drop && Flatten(live)[goes].serial in drop {
      OldestAreOldest(Flatten(live), Total(live) - Target(cfg.maxEntries), stays, goes);
    }
  }

  lemma {:induction false} KeptTimesExactly(list: seq<Occurrence>, drop: set<nat>, serial: nat)
    ensures Times(Kept(list, NotAmong(drop)), serial) == if serial in drop then 0 else Times(list, serial)
    decreases |list|
  {
    if list != [] {
      var last := list[|list| - 1];
      KeptTimesExactly(list[..|list| - 1], drop, serial);
      KeptStep(list, NotAmong(drop));
      TimesConcat(Kept(list[..|list| - 1], NotAmong(drop)), [last], serial);
      assert Times([last], serial) == if last.serial == serial then 1 else 0;
    }
  }
}
