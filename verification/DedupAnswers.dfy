/** What a call of `accept` does to the occurrences of an event's identity, said by position: which one it
    takes, what it records there, and that old ones are gone in time (src/core/deduplicator.ts). */
module DedupAnswers {
  import opened Collections
  import opened Deduplication
  import opened DedupPruning
  import opened DedupExpiry

  // ---------- which occurrence an event takes ----------

  /** Seen within the time to live, and either of the same provider id or not yet seen by the provider. */
  predicate Suits(o: Occurrence, e: Event, now: int, ttlMs: nat, byId: bool) {
    now - o.lastSeen <= ttlMs && if byId then o.providerEventId == e.providerEventId else e.source !in o.sources
  }

  ghost predicate NoneSuits(list: seq<Occurrence>, e: Event, now: int, ttlMs: nat, byId: bool) {
    forall i :: 0 <= i < |list| ==> !Suits(list[i], e, now, ttlMs, byId)
  }

  /** The last one in the list that suits. */
  ghost predicate Newest(list: seq<Occurrence>, i: int, e: Event, now: int, ttlMs: nat, byId: bool) {
    0 <= i < |list| && Suits(list[i], e, now, ttlMs, byId)
    && forall j :: i < j < |list| ==> !Suits(list[j], e, now, ttlMs, byId)
  }

  /** The list with occurrence i seen now by the provider, and otherwise as it was. */
  function SeenAgain(list: seq<Occurrence>, i: int, source: string, now: int): seq<Occurrence>
    requires 0 <= i < |list|
  {
    list[i := list[i].(sources := list[i].sources[source := now], lastSeen := now)]
  }

  ghost predicate Sought(w: Wanted, e: Event, byId: bool) {
    w == if byId then Exact(e.providerEventId) else Unseen(e.source)
  }

  lemma {:induction false} TouchIsNewest(list: seq<Occurrence>, w: Wanted, e: Event, now: int, ttlMs: nat, byId: bool)
    requires Sought(w, e, byId)
    ensures var r := TouchLast(list, w, e.source, now, ttlMs);
            if r.None? then NoneSuits(list, e, now, ttlMs, byId)
            else exists i :: Newest(list, i, e, now, ttlMs, byId) && r.value == SeenAgain(list, i, e.source, now)
    decreases |list|
  {
    if list != [] {
      var n := |list| - 1;
      var init, last := list[..n], list[n];
      var r := TouchLast(list, w, e.source, now, ttlMs);
      if Suits(last, e, now, ttlMs, byId) {
        assert Newest(list, n, e, now, ttlMs, byId);
        assert r.value == SeenAgain(list, n, e.source, now);
      } else {
        TouchIsNewest(init, w, e, now, ttlMs, byId);
        if r.Some? {
          var before := TouchLast(init, w, e.source, now, ttlMs).value;
          var i :| Newest(init, i, e, now, ttlMs, byId) && before == SeenAgain(init, i, e.source, now);
          assert Newest(list, i, e, now, ttlMs, byId);
          assert r.value == SeenAgain(list, i, e.source, now);
        }
      }
    }
  }

  /** The event is suppressed by its id if that suits an occurrence, else by the provider being new to one, and
      is otherwise accepted as a new occurrence of one provider at the end of the list. */
  ghost predicate Takes(list: seq<Occurrence>, after: seq<Occurrence>, e: Event, now: int, ttlMs: nat, serial: nat,
                        isNew: bool) {
    var known := HasId(e) && !NoneSuits(list, e, now, ttlMs, true);
    && (isNew <==> !known && NoneSuits(list, e, now, ttlMs, false))
    && (isNew ==> after == list + [Occurrence(serial, map[e.source := now], now, now, e.providerEventId)])
    && (!isNew ==> exists i :: Newest(list, i, e, now, ttlMs, known) && after == SeenAgain(list, i, e.source, now))
  }

  lemma {:induction false} MatchTakes(list: seq<Occurrence>, e: Event, now: int, ttlMs: nat, serial: nat)
    ensures var (after, isNew) := Matched(list, e, now, ttlMs, serial);
            Takes(list, after, e, now, ttlMs, serial, isNew)
  {
    TouchIsNewest(list, Exact(e.providerEventId), e, now, ttlMs, true);
    TouchIsNewest(list, Unseen(e.source), e, now, ttlMs, false);
  }

  /** Main result.  After any history, with whatever clock, an event is matched with what is held of its own
      identity: it takes the latest created occurrence that suits, once, and no other identity changes. */
  lemma {:induction false} AcceptTakesNewest(cfg: Config, history: seq<Arrival>, a: Arrival, k: Key)
    ensures var held := ListFor(Refreshed(cfg, Run(cfg, history), a.now).occurrences, k);
            var after := ListFor(Run(cfg, history + [a]).occurrences, k);
            if k == Identity(a.event) then
              Takes(held, after, a.event, a.now, cfg.ttlMs, |history|, LastAccepted(cfg, history + [a]))
            else after == held
  {
    var all := history + [a];
    assert all[..|all| - 1] == history && all[|all| - 1] == a;
    CountIsExact(cfg, history);
    AcceptedList(cfg, Run(cfg, history), a.event, a.now, k);
    MatchTakes(ListFor(Refreshed(cfg, Run(cfg, history), a.now).occurrences, k), a.event, a.now, cfg.ttlMs, |history|);
  }

  // ---------- pruning in time ----------

  /** Longer ago than half the time to live, taken as at least 250 and at most 1000 milliseconds. */
  predicate PauseOver(ttlMs: nat, elapsed: int) {
    elapsed > 250 && (elapsed > 1000 || 2 * elapsed > ttlMs)
  }

  predicate Due(cfg: Config, s: State, now: int) {
    s.entryCount > cfg.maxEntries || PauseOver(cfg.ttlMs, now - s.lastPruneAt)
  }

  /** The occurrences that were listed still are, in their places. */
  ghost predicate NoneForgotten(before: seq<Occurrence>, after: seq<Occurrence>) {
    |before| <= |after| && forall i :: 0 <= i < |before| ==> after[i].serial == before[i].serial
  }

  ghost predicate SeenSinceAll(list: seq<Occurrence>, cutoff: int) {
    forall i :: 0 <= i < |list| ==> list[i].lastSeen >= cutoff
  }

  lemma {:induction false} KeptSeenSince(list: seq<Occurrence>, rule: Rule, cutoff: int)
    requires rule == SeenSince(cutoff) || SeenSinceAll(list, cutoff)
    ensures SeenSinceAll(Kept(list, rule), cutoff)
    decreases |list|
  {
    if list != [] {
      KeptSeenSince(list[..|list| - 1], rule, cutoff);
    }
  }

  lemma {:induction false} ListSeenSince(m: Dict<Key, seq<Occurrence>>, rule: Rule, k: Key, cutoff: int)
    requires Unique(m) && (rule == SeenSince(cutoff) || SeenSinceAll(ListFor(m, k), cutoff))
    ensures SeenSinceAll(ListFor(KeptAll(m, rule), k), cutoff)
  {
    ListForKept(m, rule, k);
    KeptSeenSince(ListFor(m, k), rule, cutoff);
  }

  lemma PruneForgets(cfg: Config, s: State, now: int, k: Key, cutoff: int)
    requires Accounted(s) && cutoff == now - cfg.ttlMs && s.entryCount >= 1000 && PruneDue(cfg, s, now)
    ensures SeenSinceAll(ListFor(Refreshed(cfg, s, now).occurrences, k), cutoff)
  {
    var live := Live(cfg, s, now);
    ListSeenSince(s.occurrences, SeenSince(cutoff), k, cutoff);
    RefreshCases(cfg, s, now);
    if Evicts(cfg, s, now) {
      LiveAccounted(cfg, s, now);
      ListSeenSince(live, NotAmong(Evicted(cfg, live)), k, cutoff);
    } else {
      DuePrunes(cfg, s, now);
    }
  }

  lemma DuePrunes(cfg: Config, s: State, now: int)
    requires Accounted(s) && s.entryCount >= 1000 && PruneDue(cfg, s, now) && !Evicts(cfg, s, now)
    ensures Refreshed(cfg, s, now).occurrences == Live(cfg, s, now)
  {
    var live := KeptOnly(s, SeenSince(now - cfg.ttlMs));
    LiveAccounted(cfg, s, now);
    assert live.occurrences == Live(cfg, s, now) && live.entryCount == Total(Live(cfg, s, now));
  }

  lemma TakesSeenSince(list: seq<Occurrence>, after: seq<Occurrence>, e: Event, now: int, ttlMs: nat, serial: nat,
                       isNew: bool, cutoff: int)
    requires Takes(list, after, e, now, ttlMs, serial, isNew) && SeenSinceAll(list, cutoff) && cutoff <= now
    ensures SeenSinceAll(after, cutoff)
  {
  }

  /** When the last prune was, after a call. */
  lemma PauseKept(cfg: Config, s: State, e: Event, now: int)
    ensures var t := Accepted(cfg, s, e, now).0;
            && !PauseOver(cfg.ttlMs, now - t.lastPruneAt)
            && t.lastPruneAt == if Due(cfg, s, now) then now else s.lastPruneAt
    ensures PruneDue(cfg, s, now) <==> Due(cfg, s, now)
  {
  }

  lemma AcceptForgets(cfg: Config, s: State, e: Event, now: int, k: Key, cutoff: int)
    requires Accounted(s) && cutoff == now - cfg.ttlMs && s.entryCount >= 1000 && PruneDue(cfg, s, now)
    ensures SeenSinceAll(ListFor(Accepted(cfg, s, e, now).0.occurrences, k), cutoff)
  {
    PruneForgets(cfg, s, now, k, cutoff);
    AcceptedList(cfg, s, e, now, k);
    if k == Identity(e) {
      var held := ListFor(Refreshed(cfg, s, now).occurrences, k);
      var (after, isNew) := Matched(held, e, now, cfg.ttlMs, s.calls);
      MatchTakes(held, e, now, cfg.ttlMs, s.calls);
      TakesSeenSince(held, after, e, now, cfg.ttlMs, s.calls, isNew, cutoff);
    }
  }

  /** A call at `now` that turns s into t prunes in time, and not too soon: it prunes when the pause is over or
      too much is held, the last prune is then no longer ago than the pause, a prune of a thousand
      occurrences leaves none last seen before the time to live, and below that nothing is forgotten. */
  ghost predicate Timely(cfg: Config, s: State, t: State, now: int, k: Key) {
    && !PauseOver(cfg.ttlMs, now - t.lastPruneAt)
    && t.lastPruneAt == (if Due(cfg, s, now) then now else s.lastPruneAt)
    && (Due(cfg, s, now) && s.entryCount >= 1000 ==> SeenSinceAll(ListFor(t.occurrences, k), now - cfg.ttlMs))
    && (s.entryCount < 1000 && s.entryCount <= cfg.maxEntries ==>
          NoneForgotten(ListFor(s.occurrences, k), ListFor(t.occurrences, k)))
  }

  lemma TakesForgetsNone(list: seq<Occurrence>, after: seq<Occurrence>, e: Event, now: int, ttlMs: nat, serial: nat,
                         isNew: bool)
    requires Takes(list, after, e, now, ttlMs, serial, isNew)
    ensures NoneForgotten(list, after)
  {
  }

  lemma FewForgetNone(cfg: Config, s: State, e: Event, now: int, k: Key)
    requires Accounted(s) && s.entryCount < 1000 && s.entryCount <= cfg.maxEntries
    ensures NoneForgotten(ListFor(s.occurrences, k), ListFor(Accepted(cfg, s, e, now).0.occurrences, k))
  {
    AcceptedList(cfg, s, e, now, k);
    var held := ListFor(s.occurrences, k);
    assert Refreshed(cfg, s, now).occurrences == s.occurrences;
    if k == Identity(e) {
      var (after, isNew) := Matched(held, e, now, cfg.ttlMs, s.calls);
      MatchTakes(held, e, now, cfg.ttlMs, s.calls);
      TakesForgetsNone(held, after, e, now, cfg.ttlMs, s.calls, isNew);
    }
  }

  lemma AcceptIsTimely(cfg: Config, s: State, t: State, e: Event, now: int, k: Key)
    requires Accounted(s) && t == Accepted(cfg, s, e, now).0
    ensures Timely(cfg, s, t, now, k)
  {
    PauseKept(cfg, s, e, now);
    if s.entryCount < 1000 && s.entryCount <= cfg.maxEntries {
      FewForgetNone(cfg, s, e, now, k);
    }
    if s.entryCount >= 1000 && PruneDue(cfg, s, now) {
      AcceptForgets(cfg, s, e, now, k, now - cfg.ttlMs);
    }
  }

  /** Main result.  Expired occurrences are forgotten in time, in every run and with whatever clock. */
  lemma {:induction false} PruneIsTimely(cfg: Config, history: seq<Arrival>, a: Arrival, k: Key)
    ensures Timely(cfg, Run(cfg, history), Run(cfg, history + [a]), a.now, k)
  {
    RunNext(cfg, history, a);
    CountIsExact(cfg, history);
    AcceptIsTimely(cfg, Run(cfg, history), Run(cfg, history + [a]), a.event, a.now, k);
  }

  lemma {:induction false} RunNext(cfg: Config, history: seq<Arrival>, a: Arrival)
    ensures Run(cfg, history + [a]) == Accepted(cfg, Run(cfg, history), a.event, a.now).0
  {
    var all := history + [a];
    assert all[..|all| - 1] == history && all[|all| - 1] == a;
  }
}
