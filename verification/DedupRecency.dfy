/** When an occurrence was last seen: over every run it is the latest time at which any of its providers reported
    it, so that expiry and eviction go by the last report, whoever made it. */
module DedupRecency {
  import opened Collections
  import opened Deduplication
  import opened DedupPruning
  import opened DedupExpiry

  /** The occurrence was last seen when the latest of its providers reported it, and not after `now`. */
  ghost predicate Dated(o: Occurrence, now: int) {
    && o.createdAt <= o.lastSeen <= now
    && (forall p :: p in o.sources ==> o.createdAt <= o.sources[p] <= o.lastSeen)
    && exists p :: p in o.sources && o.sources[p] == o.lastSeen
  }

  ghost predicate AllDated(list: seq<Occurrence>, now: int) {
    forall o :: o in list ==> Dated(o, now)
  }

  lemma TouchDated(o: Occurrence, source: string, early: int, now: int)
    requires Dated(o, early) && early <= now
    ensures Dated(Touch(o, source, now), now)
  {
    assert Touch(o, source, now).sources[source] == now;
  }

  lemma CreatedDated(e: Event, now: int, serial: nat)
    ensures Dated(Created(e, now, serial), now)
  {
    assert Created(e, now, serial).sources[e.source] == now;
  }

  lemma LaterDated(list: seq<Occurrence>, early: int, now: int)
    requires AllDated(list, early) && early <= now
    ensures AllDated(list, now)
  {
    forall o | o in list ensures Dated(o, now) {
      assert Dated(o, early);
    }
  }

  lemma {:induction false} TouchLastDated(list: seq<Occurrence>, w: Wanted, source: string, early: int, now: int,
                                          ttlMs: nat)
    requires AllDated(list, early) && early <= now
    ensures var r := TouchLast(list, w, source, now, ttlMs); r.Some? ==> AllDated(r.value, now)
    decreases |list|
  {
    if list != [] {
      var init, last := list[..|list| - 1], list[|list| - 1];
      assert list == init + [last];
      assert Dated(last, early);
      LaterDated(init, early, now);
      TouchLastDated(init, w, source, early, now, ttlMs);
      TouchDated(last, source, early, now);
    }
  }

  lemma MatchDated(list: seq<Occurrence>, e: Event, early: int, now: int, ttlMs: nat, serial: nat)
    requires AllDated(list, early) && early <= now
    ensures AllDated(Matched(list, e, now, ttlMs, serial).0, now)
  {
    TouchLastDated(list, Exact(e.providerEventId), e.source, early, now, ttlMs);
    TouchLastDated(list, Unseen(e.source), e.source, early, now, ttlMs);
    LaterDated(list, early, now);
    CreatedDated(e, now, serial);
  }

  // ---------- all identities ----------

  ghost predicate MapDated(m: Dict<Key, seq<Occurrence>>, now: int) {
    forall i :: 0 <= i < |m| ==> AllDated(m[i].1, now)
  }

  lemma {:induction false} KeptDated(list: seq<Occurrence>, rule: Rule, now: int)
    requires AllDated(list, now)
    ensures AllDated(Kept(list, rule), now)
    decreases |list|
  {
    if list != [] {
      var init, last := list[..|list| - 1], list[|list| - 1];
      assert list == init + [last];
      KeptDated(init, rule, now);
    }
  }

  lemma {:induction false} KeptAllDated(m: Dict<Key, seq<Occurrence>>, rule: Rule, now: int)
    requires MapDated(m, now)
    ensures MapDated(KeptAll(m, rule), now)
    decreases |m|
  {
    if m != [] {
      var init := m[..|m| - 1];
      KeptAllDated(init, rule, now);
      KeptDated(m[|m| - 1].1, rule, now);
    }
  }

  lemma RefreshDated(cfg: Config, s: State, now: int, early: int)
    requires Accounted(s) && MapDated(s.occurrences, early)
    ensures MapDated(Refreshed(cfg, s, now).occurrences, early)
  {
    var live := Live(cfg, s, now);
    RefreshCases(cfg, s, now);
    KeptAllDated(s.occurrences, SeenSince(now - cfg.ttlMs), early);
    if Evicts(cfg, s, now) {
      KeptAllDated(live, NotAmong(Evicted(cfg, live)), early);
    }
  }

  lemma AcceptDated(cfg: Config, s: State, e: Event, early: int, now: int)
    requires Accounted(s) && MapDated(s.occurrences, early) && early <= now
    ensures MapDated(Accepted(cfg, s, e, now).0.occurrences, now)
  {
    var t, k := Refreshed(cfg, s, now), Identity(e);
    RefreshDated(cfg, s, now, early);
    forall i | 0 <= i < |t.occurrences| ensures AllDated(t.occurrences[i].1, now) {
      LaterDated(t.occurrences[i].1, early, now);
    }
    assert AllDated(ListFor(t.occurrences, k), early);
    MatchDated(ListFor(t.occurrences, k), e, early, now, cfg.ttlMs, t.calls);
  }

  /** Main result.  With a clock that does not go back, after every run each occurrence was last seen exactly when
      the latest of its providers reported it. */
  lemma {:induction false} LastSeenIsLatest(cfg: Config, history: seq<Arrival>, now: int)
    requires NonDecreasing(history) && (history != [] ==> history[|history| - 1].now <= now)
    ensures MapDated(Run(cfg, history).occurrences, now)
    decreases |history|
  {
    if history != [] {
      var before, a := history[..|history| - 1], history[|history| - 1];
      LastSeenIsLatest(cfg, before, a.now);
      CountIsExact(cfg, before);
      AcceptDated(cfg, Run(cfg, before), a.event, a.now, a.now);
      var m := Run(cfg, history).occurrences;
      forall i | 0 <= i < |m| ensures AllDated(m[i].1, now) {
        LaterDated(m[i].1, a.now, now);
      }
    }
  }
}
