/** Removing expired occurrences changes no answer, so what `DedupCounting` proves of an object that
    never prunes holds of the one that does, for every identity of which the hard cap evicts no unexpired
    occurrence. */
module DedupExpiry {
  import opened Collections
  import opened Deduplication
  import opened DedupCounting
  import opened DedupPruning

  // ---------- matching sees only what has not expired ----------

  /** Searching the unexpired part finds what searching everything finds. */
  lemma {:induction false} TouchSeesYoung(list: seq<Occurrence>, w: Wanted, source: string, now: int, ttlMs: nat)
    ensures var rule := SeenSince(now - ttlMs);
            var r, r' := TouchLast(list, w, source, now, ttlMs), TouchLast(Kept(list, rule), w, source, now, ttlMs);
            r.Some? == r'.Some? && (r.Some? ==> Kept(r.value, rule) == r'.value)
    decreases |list|
  {
    if list != [] {
      var rule := SeenSince(now - ttlMs);
      var init, last := list[..|list| - 1], list[|list| - 1];
      TouchSeesYoung(init, w, source, now, ttlMs);
      KeptStep(list, rule);
      if Keeps(rule, last) {
        assert Kept(list, rule)[..|Kept(init, rule)|] == Kept(init, rule);
      } else {
        var r := TouchLast(init, w, source, now, ttlMs);
        if r.Some? {
          KeptSnoc(r.value, last, rule);
        }
      }
    }
  }

  lemma MatchSeesYoung(list: seq<Occurrence>, e: Event, now: int, ttlMs: nat, serial: nat)
    ensures var rule := SeenSince(now - ttlMs);
            && Matched(list, e, now, ttlMs, serial).1 == Matched(Kept(list, rule), e, now, ttlMs, serial).1
            && Kept(Matched(list, e, now, ttlMs, serial).0, rule) == Matched(Kept(list, rule), e, now, ttlMs, serial).0
  {
    TouchSeesYoung(list, Exact(e.providerEventId), e.source, now, ttlMs);
    TouchSeesYoung(list, Unseen(e.source), e.source, now, ttlMs);
    KeptSnoc(list, Created(e, now, serial), SeenSince(now - ttlMs));
  }

  // ---------- the unexpired part survives a prune ----------

  lemma {:induction false} KeptTwice(list: seq<Occurrence>, early: int, late: int)
    requires early <= late
    ensures Kept(Kept(list, SeenSince(early)), SeenSince(late)) == Kept(list, SeenSince(late))
    decreases |list|
  {
    if list != [] {
      var init, last := list[..|list| - 1], list[|list| - 1];
      KeptTwice(init, early, late);
      KeptStep(list, SeenSince(early));
      KeptStep(list, SeenSince(late));
      KeptSnoc(Kept(init, SeenSince(early)), last, SeenSince(late));
    }
  }

  /** Two lists that agree from a time on agree from any later time on. */
  lemma KeptLater(a: seq<Occurrence>, b: seq<Occurrence>, early: int, late: int, ttlMs: nat)
    requires early <= late && Agree(a, b, early, ttlMs)
    ensures Agree(a, b, late, ttlMs)
  {
    KeptTwice(a, early - ttlMs, late - ttlMs);
    KeptTwice(b, early - ttlMs, late - ttlMs);
  }

  lemma ListForSnoc(m: Dict<Key, seq<Occurrence>>, k: Key)
    requires m != [] && Unique(m)
    ensures ListFor(m, k) == if m[|m| - 1].0 == k then m[|m| - 1].1 else ListFor(m[..|m| - 1], k)
  {
    var init := m[..|m| - 1];
    if m[|m| - 1].0 == k {
      IndexOfUnique(m, |m| - 1);
    } else {
      HasIff(m, k);
      HasIff(init, k);
      if Has(init, k) {
        IndexOfUnique(m, IndexOf(init, k));
      } else {
        assert forall i :: 0 <= i < |init| ==> m[i] == init[i];
      }
    }
  }

  /** Pruning acts on each identity separately. */
  lemma {:induction false} ListForKept(m: Dict<Key, seq<Occurrence>>, rule: Rule, k: Key)
    requires Unique(m)
    ensures ListFor(KeptAll(m, rule), k) == Kept(ListFor(m, k), rule)
    decreases |m|
  {
    if m != [] {
      var init := m[..|m| - 1];
      var (k', list) := m[|m| - 1];
      ListForKept(init, rule, k);
      ListForSnoc(m, k);
      KeptAllUnique(m, rule);
      if Kept(list, rule) != [] {
        var after := KeptAll(m, rule);
        assert after[..|after| - 1] == KeptAll(init, rule);
        ListForSnoc(after, k);
      } else {
        assert KeptAll(m, rule) == KeptAll(init, rule);
        AbsentList(init, rule, k');
      }
    }
  }

  /** An identity that is not there has no list, before or after a prune. */
  lemma AbsentList(init: Dict<Key, seq<Occurrence>>, rule: Rule, k: Key)
    ensures k !in Keys(init) ==> ListFor(KeptAll(init, rule), k) == []
  {
    KeptAllKeys(init, rule, k);
    HasIff(KeptAll(init, rule), k);
  }

  // ---------- the simulation ----------

  /** The call evicts no unexpired occurrence of the identity. */
  predicate Spares(cfg: Config, s: State, now: int, k: Key) {
    Evicts(cfg, s, now) ==>
      var live := Live(cfg, s, now);
      forall i :: 0 <= i < |ListFor(live, k)| ==> ListFor(live, k)[i].serial !in Evicted(cfg, live)
  }

  /** No call of the run does. */
  predicate KeySpared(cfg: Config, history: seq<Arrival>, k: Key)
    decreases |history|
  {
    history == []
    || var before, a := history[..|history| - 1], history[|history| - 1];
       KeySpared(cfg, before, k) && Spares(cfg, Run(cfg, before), a.now, k)
  }

  /** Two lists for an identity hold the same occurrences unexpired at this time. */
  predicate Agree(a: seq<Occurrence>, b: seq<Occurrence>, now: int, ttlMs: nat) {
    Kept(a, SeenSince(now - ttlMs)) == Kept(b, SeenSince(now - ttlMs))
  }

  lemma LiveAgrees(cfg: Config, s: State, now: int, k: Key)
    requires Unique(s.occurrences)
    ensures Agree(ListFor(Live(cfg, s, now), k), ListFor(s.occurrences, k), now, cfg.ttlMs)
  {
    ListForKept(s.occurrences, SeenSince(now - cfg.ttlMs), k);
    KeptTwice(ListFor(s.occurrences, k), now - cfg.ttlMs, now - cfg.ttlMs);
  }

  /** The occurrences after the prune that may precede a call: all, the unexpired, or what an eviction leaves. */
  lemma RefreshCases(cfg: Config, s: State, now: int)
    requires Accounted(s)
    ensures var m, live := Refreshed(cfg, s, now).occurrences, Live(cfg, s, now);
            if Evicts(cfg, s, now) then m == KeptAll(live, NotAmong(Evicted(cfg, live)))
            else m == s.occurrences || m == live
  {
    LiveAccounted(cfg, s, now);
    if Evicts(cfg, s, now) {
      PrunedEvicts(cfg, s, now);
    } else if PruneDue(cfg, s, now) {
      assert KeptOnly(s, SeenSince(now - cfg.ttlMs)).occurrences == Live(cfg, s, now);
      assert KeptOnly(s, SeenSince(now - cfg.ttlMs)).entryCount == Total(Live(cfg, s, now));
    }
  }

  lemma {:induction false} KeptWhole(list: seq<Occurrence>, drop: set<nat>)
    requires forall i :: 0 <= i < |list| ==> list[i].serial !in drop
    ensures Kept(list, NotAmong(drop)) == list
    decreases |list|
  {
    if list != [] {
      KeptWhole(list[..|list| - 1], drop);
      KeptStep(list, NotAmong(drop));
    }
  }

  /** A prune that spares an identity leaves its unexpired occurrences alone. */
  lemma RefreshAgrees(cfg: Config, s: State, now: int, k: Key)
    requires Accounted(s) && Spares(cfg, s, now, k)
    ensures Agree(ListFor(Refreshed(cfg, s, now).occurrences, k), ListFor(s.occurrences, k), now, cfg.ttlMs)
  {
    RefreshCases(cfg, s, now);
    LiveAgrees(cfg, s, now, k);
    if Evicts(cfg, s, now) {
      var live := Live(cfg, s, now);
      LiveAccounted(cfg, s, now);
      ListForKept(live, NotAmong(Evicted(cfg, live)), k);
      KeptWhole(ListFor(live, k), Evicted(cfg, live));
    }
  }

  lemma MatchAgrees(a: seq<Occurrence>, b: seq<Occurrence>, e: Event, now: int, ttlMs: nat, serial: nat)
    requires Agree(a, b, now, ttlMs)
    ensures Matched(a, e, now, ttlMs, serial).1 == Matched(b, e, now, ttlMs, serial).1
    ensures Agree(Matched(a, e, now, ttlMs, serial).0, Matched(b, e, now, ttlMs, serial).0, now, ttlMs)
  {
    MatchSeesYoung(a, e, now, ttlMs, serial);
    MatchSeesYoung(b, e, now, ttlMs, serial);
  }

  /** What a call does to the list of an identity. */
  lemma AcceptedList(cfg: Config, s: State, e: Event, now: int, k: Key)
    requires Accounted(s)
    ensures var list := ListFor(Refreshed(cfg, s, now).occurrences, k);
            var (after, isNew) := Accepted(cfg, s, e, now);
            if Identity(e) == k then
              isNew == Matched(list, e, now, cfg.ttlMs, s.calls).1
              && ListFor(after.occurrences, k) == Matched(list, e, now, cfg.ttlMs, s.calls).0
            else ListFor(after.occurrences, k) == list
  {
    RefreshAccounted(cfg, s, now);
    var t := Refreshed(cfg, s, now);
    PutFacts(t.occurrences, Identity(e), Matched(ListFor(t.occurrences, Identity(e)), e, now, cfg.ttlMs, s.calls).0);
  }

  /** The list of one identity after an event, when nothing is ever pruned. */
  function IdealNext(ideal: seq<Occurrence>, k: Key, a: Arrival, ttlMs: nat, serial: nat): seq<Occurrence> {
    if Identity(a.event) == k then Matched(ideal, a.event, a.now, ttlMs, serial).0 else ideal
  }

  lemma AgreeTrans(a: seq<Occurrence>, b: seq<Occurrence>, c: seq<Occurrence>, now: int, ttlMs: nat)
    requires Agree(a, b, now, ttlMs) && Agree(b, c, now, ttlMs)
    ensures Agree(a, c, now, ttlMs)
  {
  }

  lemma RefreshedAgrees(cfg: Config, s: State, now: int, k: Key, ideal: seq<Occurrence>)
    requires Accounted(s) && Spares(cfg, s, now, k) && Agree(ListFor(s.occurrences, k), ideal, now, cfg.ttlMs)
    ensures Agree(ListFor(Refreshed(cfg, s, now).occurrences, k), ideal, now, cfg.ttlMs)
  {
    RefreshAgrees(cfg, s, now, k);
    AgreeTrans(ListFor(Refreshed(cfg, s, now).occurrences, k), ListFor(s.occurrences, k), ideal, now, cfg.ttlMs);
  }

  lemma AnswersAgree(list: seq<Occurrence>, after: seq<Occurrence>, isNew: bool, ideal: seq<Occurrence>, k: Key,
                     a: Arrival, ttlMs: nat, serial: nat)
    requires Agree(list, ideal, a.now, ttlMs)
    requires if Identity(a.event) == k then (after, isNew) == Matched(list, a.event, a.now, ttlMs, serial)
            else after == list
    ensures Identity(a.event) == k ==> isNew == Matched(ideal, a.event, a.now, ttlMs, serial).1
    ensures Agree(after, IdealNext(ideal, k, a, ttlMs, serial), a.now, ttlMs)
  {
    MatchAgrees(list, ideal, a.event, a.now, ttlMs, serial);
  }

  /** One call keeps two lists for an identity in agreement, and answers alike on both. */
  lemma AcceptAgrees(cfg: Config, s: State, after: State, isNew: bool, a: Arrival, k: Key, ideal: seq<Occurrence>)
    requires Accounted(s) && Spares(cfg, s, a.now, k) && (after, isNew) == Accepted(cfg, s, a.event, a.now)
    requires Agree(ListFor(s.occurrences, k), ideal, a.now, cfg.ttlMs)
    ensures Identity(a.event) == k ==> isNew == Matched(ideal, a.event, a.now, cfg.ttlMs, s.calls).1
    ensures Agree(ListFor(after.occurrences, k), IdealNext(ideal, k, a, cfg.ttlMs, s.calls), a.now, cfg.ttlMs)
  {
    RefreshedAgrees(cfg, s, a.now, k, ideal);
    AcceptedList(cfg, s, a.event, a.now, k);
    AnswersAgree(ListFor(Refreshed(cfg, s, a.now).occurrences, k), ListFor(after.occurrences, k), isNew,
                 ideal, k, a, cfg.ttlMs, s.calls);
  }

  /** The step, for any later time. */
  lemma AgreesLater(cfg: Config, s: State, s': State, a: Arrival, k: Key, ideal: seq<Occurrence>,
                    ideal': seq<Occurrence>, now: int)
    requires Accounted(s) && Spares(cfg, s, a.now, k) && Agree(ListFor(s.occurrences, k), ideal, a.now, cfg.ttlMs)
    requires s' == Accepted(cfg, s, a.event, a.now).0 && ideal' == IdealNext(ideal, k, a, cfg.ttlMs, s.calls)
            && a.now <= now
    ensures Agree(ListFor(s'.occurrences, k), ideal', now, cfg.ttlMs)
  {
    var list' := ListFor(s'.occurrences, k);
    assert Agree(list', ideal', a.now, cfg.ttlMs) by {
      AcceptAgrees(cfg, s, s', Accepted(cfg, s, a.event, a.now).1, a, k, ideal);
    }
    KeptLater(list', ideal', a.now, now, cfg.ttlMs);
  }

  lemma YoungAgreeStep(cfg: Config, history: seq<Arrival>, k: Key, now: int)
    requires history != [] && history[|history| - 1].now <= now
    requires var before, a := history[..|history| - 1], history[|history| - 1];
             && Spares(cfg, Run(cfg, before), a.now, k)
             && Agree(ListFor(Run(cfg, before).occurrences, k), Ideal(cfg.ttlMs, before, k), a.now, cfg.ttlMs)
    ensures Agree(ListFor(Run(cfg, history).occurrences, k), Ideal(cfg.ttlMs, history, k), now, cfg.ttlMs)
  {
    var before, a := history[..|history| - 1], history[|history| - 1];
    CountIsExact(cfg, before);
    AgreesLater(cfg, Run(cfg, before), Run(cfg, history), a, k, Ideal(cfg.ttlMs, before, k),
        Ideal(cfg.ttlMs, history, k), now);
  }

  lemma NothingAgrees(cfg: Config, k: Key, now: int)
    ensures Agree(ListFor(Run(cfg, []).occurrences, k), Ideal(cfg.ttlMs, [], k), now, cfg.ttlMs)
  {
  }

  /** At every moment the object and one that never prunes hold the same unexpired occurrences. */
  lemma {:induction false} YoungAgree(cfg: Config, history: seq<Arrival>, k: Key, now: int)
    requires NonDecreasing(history) && KeySpared(cfg, history, k)
    requires history != [] ==> history[|history| - 1].now <= now
    ensures Agree(ListFor(Run(cfg, history).occurrences, k), Ideal(cfg.ttlMs, history, k), now, cfg.ttlMs)
    decreases |history|
  {
    if history == [] {
      NothingAgrees(cfg, k, now);
    } else {
      var before := history[..|history| - 1];
      assert NonDecreasing(before);
      YoungAgree(cfg, before, k, history[|history| - 1].now);
      YoungAgreeStep(cfg, history, k, now);
    }
  }

  /** Main result.  With a clock that does not go back, and until an unexpired occurrence of its identity is
      evicted, the object answers an event as one that never prunes. */
  lemma {:induction false} ExpiryIsInvisible(cfg: Config, history: seq<Arrival>)
    requires history != [] && NonDecreasing(history)
    requires KeySpared(cfg, history, Identity(history[|history| - 1].event))
    ensures var before, a := history[..|history| - 1], history[|history| - 1];
            LastAccepted(cfg, history) ==
            Matched(Ideal(cfg.ttlMs, before, Identity(a.event)), a.event, a.now, cfg.ttlMs, |before|).1
  {
    var before, a := history[..|history| - 1], history[|history| - 1];
    YoungAgree(cfg, before, Identity(a.event), a.now);
    CountIsExact(cfg, before);
    AcceptAgrees(cfg, Run(cfg, before), Run(cfg, history), LastAccepted(cfg, history), a, Identity(a.event),
                 Ideal(cfg.ttlMs, before, Identity(a.event)));
  }

  // ---------- consequences for the object itself ----------

  /** How many arrivals of an identity the object accepts. */
  function Accepts(cfg: Config, history: seq<Arrival>, k: Key): nat
    decreases |history|
  {
    if history == [] then 0
    else
      Accepts(cfg, history[..|history| - 1], k)
      + if Identity(history[|history| - 1].event) == k && LastAccepted(cfg, history) then 1 else 0
  }

  lemma {:induction false} AcceptsAreIdeal(cfg: Config, history: seq<Arrival>, k: Key)
    requires NonDecreasing(history) && KeySpared(cfg, history, k)
    ensures Accepts(cfg, history, k) == IdealAccepts(cfg.ttlMs, history, k)
    decreases |history|
  {
    if history != [] {
      AcceptsAreIdeal(cfg, history[..|history| - 1], k);
      if Identity(history[|history| - 1].event) == k {
        ExpiryIsInvisible(cfg, history);
      }
    }
  }

  /** Main result.  The counting theorem, for the object with its pruning. */
  lemma {:induction false} AcceptedIsTheMaximum(cfg: Config, history: seq<Arrival>, content: string)
    requires NonDecreasing(history) && KeySpared(cfg, history, ByContent(content))
    requires NoneExpires(cfg.ttlMs, history, ByContent(content))
    ensures var n := Accepts(cfg, history, ByContent(content));
            && (forall p :: From(history, ByContent(content), p) <= n)
            && (n > 0 ==> exists p :: From(history, ByContent(content), p) == n)
  {
    AcceptsAreIdeal(cfg, history, ByContent(content));
    AcceptsAreTheMaximum(cfg.ttlMs, history, content);
  }

  lemma {:induction false} KeptMissing(list: seq<Occurrence>, rule: Rule, p: string)
    ensures |Kept(list, rule)| - Slots(Kept(list, rule), p) <= |list| - Slots(list, p)
    decreases |list|
  {
    if list != [] {
      var init, last := list[..|list| - 1], list[|list| - 1];
      KeptMissing(init, rule, p);
      KeptStep(list, rule);
      SlotsAppend(Kept(init, rule), last, p);
    }
  }

  /** Whatever a prune removes, it leaves the provider no more occurrences without it. */
  lemma RefreshMissing(cfg: Config, s: State, now: int, k: Key, p: string)
    requires Accounted(s)
    ensures var list, was := ListFor(Refreshed(cfg, s, now).occurrences, k), ListFor(s.occurrences, k);
            |list| - Slots(list, p) <= |was| - Slots(was, p)
  {
    var live, rule := Live(cfg, s, now), SeenSince(now - cfg.ttlMs);
    RefreshCases(cfg, s, now);
    LiveAccounted(cfg, s, now);
    ListForKept(s.occurrences, rule, k);
    KeptMissing(ListFor(s.occurrences, k), rule, p);
    if Evicts(cfg, s, now) {
      ListForKept(live, NotAmong(Evicted(cfg, live)), k);
      KeptMissing(ListFor(live, k), NotAmong(Evicted(cfg, live)), p);
    }
  }

  lemma AcceptMissing(cfg: Config, s: State, after: State, isNew: bool, a: Arrival, content: string, p: string)
    requires Accounted(s) && (after, isNew) == Accepted(cfg, s, a.event, a.now)
    ensures var k := ByContent(content);
            var was, list := ListFor(s.occurrences, k), ListFor(after.occurrences, k);
            |list| - Slots(list, p) + (if Identity(a.event) == k && a.event.source == p then 1 else 0)
            <= |was| - Slots(was, p) + if Identity(a.event) == k && isNew then 1 else 0
  {
    var k := ByContent(content);
    RefreshMissing(cfg, s, a.now, k, p);
    AcceptedList(cfg, s, a.event, a.now, k);
    if Identity(a.event) == k {
      MatchTakesSlot(ListFor(Refreshed(cfg, s, a.now).occurrences, k), a.event, a.now, cfg.ttlMs, s.calls, p);
    }
  }

  lemma {:induction false} RunMissing(cfg: Config, history: seq<Arrival>, content: string, p: string)
    ensures var list := ListFor(Run(cfg, history).occurrences, ByContent(content));
            From(history, ByContent(content), p) + |list| - Slots(list, p) <= Accepts(cfg, history, ByContent(content))
    decreases |history|
  {
    if history != [] {
      var before, a := history[..|history| - 1], history[|history| - 1];
      RunMissing(cfg, before, content, p);
      CountIsExact(cfg, before);
      AcceptMissing(cfg, Run(cfg, before), Run(cfg, history), LastAccepted(cfg, history), a, content, p);
    }
  }

  /** Main result.  Repeats of one provider are never taken for duplicates of one another: whatever the clock
      does, and whatever expires or is evicted, at least as many events of an identity are accepted as any one
      provider sent. */
  lemma {:induction false} AcceptsEveryRepeat(cfg: Config, history: seq<Arrival>, content: string, p: string)
    ensures From(history, ByContent(content), p) <= Accepts(cfg, history, ByContent(content))
  {
    RunMissing(cfg, history, content, p);
    SlotsBound(ListFor(Run(cfg, history).occurrences, ByContent(content)), p);
  }

  /** Main result.  The object accepts an event with a provider id exactly when the id was not received
      within the time to live. */
  lemma {:induction false} IdAcceptedIff(cfg: Config, history: seq<Arrival>)
    requires history != [] && NonDecreasing(history)
    requires KeySpared(cfg, history, Identity(history[|history| - 1].event))
    requires HasId(history[|history| - 1].event)
    ensures var before, a := history[..|history| - 1], history[|history| - 1];
            var last := LastArrival(before, Identity(a.event));
            LastAccepted(cfg, history) <==> last.None? || a.now - last.value > cfg.ttlMs
  {
    ExpiryIsInvisible(cfg, history);
    IdIsSuppressedWithinTtl(cfg.ttlMs, history[..|history| - 1], history[|history| - 1].event,
        history[|history| - 1].now);
  }

  // ---------- when nothing is evicted ----------

  /** How many arrivals there were since a time. */
  function Recent(history: seq<Arrival>, cutoff: int): nat
    decreases |history|
  {
    if history == [] then 0
    else Recent(history[..|history| - 1], cutoff) + if history[|history| - 1].now >= cutoff then 1 else 0
  }

  /** How many arrivals lie within the time to live before a time. */
  function Unexpired(cfg: Config, history: seq<Arrival>, now: int): nat {
    Recent(history, now - cfg.ttlMs)
  }

  /** Before each arrival, no more arrivals within the time to live than the limit. */
  predicate FewRecent(cfg: Config, history: seq<Arrival>)
    decreases |history|
  {
    history == []
    || var before, a := history[..|history| - 1], history[|history| - 1];
       FewRecent(cfg, before) && Unexpired(cfg, before, a.now) <= cfg.maxEntries
  }

  /** How many occurrences were seen since a time. */
  function Seen(list: seq<Occurrence>, cutoff: int): nat {
    |Kept(list, SeenSince(cutoff))|
  }

  lemma {:induction false} KeptSeen(list: seq<Occurrence>, rule: Rule, cutoff: int)
    ensures Seen(Kept(list, rule), cutoff) <= Seen(list, cutoff)
    decreases |list|
  {
    if list != [] {
      var init, last := list[..|list| - 1], list[|list| - 1];
      KeptSeen(init, rule, cutoff);
      KeptStep(list, rule);
      KeptStep(list, SeenSince(cutoff));
      KeptSnoc(Kept(init, rule), last, SeenSince(cutoff));
    }
  }

  lemma {:induction false} TouchSeen(list: seq<Occurrence>, w: Wanted, source: string, now: int, ttlMs: nat,
                                     cutoff: int)
    ensures var r := TouchLast(list, w, source, now, ttlMs);
            r.Some? ==> Seen(r.value, cutoff) <= Seen(list, cutoff) + if now >= cutoff then 1 else 0
    decreases |list|
  {
    if list != [] {
      var init, last, rule := list[..|list| - 1], list[|list| - 1], SeenSince(cutoff);
      TouchSeen(init, w, source, now, ttlMs, cutoff);
      KeptStep(list, rule);
      var r := TouchLast(init, w, source, now, ttlMs);
      if Fits(w, last, now, ttlMs) {
        KeptSnoc(init, Touch(last, source, now), rule);
      } else if r.Some? {
        KeptSnoc(r.value, last, rule);
      }
    }
  }

  lemma MatchSeen(list: seq<Occurrence>, e: Event, now: int, ttlMs: nat, serial: nat, cutoff: int)
    ensures Seen(Matched(list, e, now, ttlMs, serial).0, cutoff) <= Seen(list, cutoff) + if now >= cutoff then 1 else 0
  {
    TouchSeen(list, Exact(e.providerEventId), e.source, now, ttlMs, cutoff);
    TouchSeen(list, Unseen(e.source), e.source, now, ttlMs, cutoff);
    KeptSnoc(list, Created(e, now, serial), SeenSince(cutoff));
  }

  lemma {:induction false} UpdateSeen(m: Dict<Key, seq<Occurrence>>, i: nat, k: Key, list: seq<Occurrence>, cutoff: int)
    requires i < |m|
    ensures Seen(Flatten(m[i := (k, list)]), cutoff) + Seen(m[i].1, cutoff)
            == Seen(Flatten(m), cutoff) + Seen(list, cutoff)
    decreases |m|
  {
    var n, rule := |m| - 1, SeenSince(cutoff);
    KeptConcat(Flatten(m[..n]), m[n].1, rule);
    if i < n {
      UpdateSeen(m[..n], i, k, list, cutoff);
      assert m[i := (k, list)][..n] == m[..n][i := (k, list)];
      KeptConcat(Flatten(m[..n][i := (k, list)]), m[n].1, rule);
    } else {
      assert m[i := (k, list)][..n] == m[..n];
      KeptConcat(Flatten(m[..n]), list, rule);
    }
  }

  lemma PutSeen(m: Dict<Key, seq<Occurrence>>, k: Key, list: seq<Occurrence>, cutoff: int)
    ensures Seen(Flatten(Put(m, k, list)), cutoff) + Seen(ListFor(m, k), cutoff)
            == Seen(Flatten(m), cutoff) + Seen(list, cutoff)
  {
    var i := IndexOf(m, k);
    if i < |m| {
      UpdateSeen(m, i, k, list, cutoff);
    } else {
      FlattenAppend(m, k, list);
      KeptConcat(Flatten(m), list, SeenSince(cutoff));
    }
  }

  lemma KeptAllSeen(m: Dict<Key, seq<Occurrence>>, rule: Rule, cutoff: int)
    ensures Seen(Flatten(KeptAll(m, rule)), cutoff) <= Seen(Flatten(m), cutoff)
  {
    FlattenKept(m, rule);
    KeptSeen(Flatten(m), rule, cutoff);
  }

  lemma ShrunkSeen(m: Dict<Key, seq<Occurrence>>, was: Dict<Key, seq<Occurrence>>, since: Rule, drop: Rule, cutoff: int)
    requires m == was || m == KeptAll(was, since) || m == KeptAll(KeptAll(was, since), drop)
    ensures Seen(Flatten(m), cutoff) <= Seen(Flatten(was), cutoff)
  {
    KeptAllSeen(was, since, cutoff);
    KeptAllSeen(KeptAll(was, since), drop, cutoff);
  }

  lemma RefreshSeen(cfg: Config, s: State, now: int, cutoff: int)
    requires Accounted(s)
    ensures Seen(Flatten(Refreshed(cfg, s, now).occurrences), cutoff) <= Seen(Flatten(s.occurrences), cutoff)
  {
    var m, rule := Refreshed(cfg, s, now).occurrences, SeenSince(now - cfg.ttlMs);
    RefreshCases(cfg, s, now);
    if Evicts(cfg, s, now) {
      ShrunkSeen(m, s.occurrences, rule, NotAmong(Evicted(cfg, Live(cfg, s, now))), cutoff);
    } else {
      ShrunkSeen(m, s.occurrences, rule, rule, cutoff);
    }
  }

  lemma AcceptSeen(cfg: Config, s: State, e: Event, now: int, cutoff: int)
    requires Accounted(s)
    ensures Seen(Flatten(Accepted(cfg, s, e, now).0.occurrences), cutoff)
         <= Seen(Flatten(s.occurrences), cutoff) + if now >= cutoff then 1 else 0
  {
    var t, k := Refreshed(cfg, s, now), Identity(e);
    RefreshSeen(cfg, s, now, cutoff);
    MatchSeen(ListFor(t.occurrences, k), e, now, cfg.ttlMs, t.calls, cutoff);
    PutSeen(t.occurrences, k, Matched(ListFor(t.occurrences, k), e, now, cfg.ttlMs, t.calls).0, cutoff);
  }

  /** The occurrences seen since a time never outnumber the arrivals since then. */
  lemma {:induction false} SeenAreRecent(cfg: Config, history: seq<Arrival>, cutoff: int)
    ensures Seen(Flatten(Run(cfg, history).occurrences), cutoff) <= Recent(history, cutoff)
    decreases |history|
  {
    if history != [] {
      var before, a := history[..|history| - 1], history[|history| - 1];
      SeenAreRecent(cfg, before, cutoff);
      CountIsExact(cfg, before);
      AcceptSeen(cfg, Run(cfg, before), a.event, a.now, cutoff);
    }
  }

  lemma LiveAreSeen(m: Dict<Key, seq<Occurrence>>, cutoff: int)
    ensures Total(KeptAll(m, SeenSince(cutoff))) == Seen(Flatten(m), cutoff)
  {
    FlattenKept(m, SeenSince(cutoff));
  }

  lemma LiveTotal(cfg: Config, s: State, now: int, cutoff: int)
    requires cutoff == now - cfg.ttlMs
    ensures Total(Live(cfg, s, now)) == Seen(Flatten(s.occurrences), cutoff)
  {
    LiveAreSeen(s.occurrences, cutoff);
  }

  lemma {:induction false} UnexpiredAreRecent(cfg: Config, history: seq<Arrival>, now: int, cutoff: int)
    requires cutoff == now - cfg.ttlMs
    ensures Unexpired(cfg, history, now) == Recent(history, cutoff)
  {
  }

  lemma {:induction false} LiveAreRecent(cfg: Config, history: seq<Arrival>, s: State, now: int, cutoff: int)
    requires s == Run(cfg, history) && cutoff == now - cfg.ttlMs
    ensures Total(Live(cfg, s, now)) <= Unexpired(cfg, history, now)
  {
    SeenAreRecent(cfg, history, cutoff);
    UnexpiredAreRecent(cfg, history, now, cutoff);
    LiveTotal(cfg, s, now, cutoff);
  }

  lemma {:induction false} FewRecentSpare(cfg: Config, history: seq<Arrival>, s: State, now: int, k: Key)
    requires s == Run(cfg, history) && Unexpired(cfg, history, now) <= cfg.maxEntries
    ensures Spares(cfg, s, now, k)
  {
    LiveAreRecent(cfg, history, s, now, now - cfg.ttlMs);
  }

  /** Main result.  While no more events than the limit arrive within any time to live, the hard cap never
      fires, however long the history and whatever the clock; so every identity is spared. */
  lemma {:induction false} FewRecentEvictNothing(cfg: Config, history: seq<Arrival>, k: Key)
    requires FewRecent(cfg, history)
    ensures KeySpared(cfg, history, k)
    decreases |history|
  {
    if history != [] {
      var before, a := history[..|history| - 1], history[|history| - 1];
      FewRecentEvictNothing(cfg, before, k);
      FewRecentSpare(cfg, before, Run(cfg, before), a.now, k);
    }
  }

  /** The guard is needed: with no room at all every call forgets everything, and nothing is ever
      suppressed. */
  lemma {:induction false} NoRoomSuppressesNothing(cfg: Config, history: seq<Arrival>)
    requires history != [] && cfg.maxEntries == 0
    ensures LastAccepted(cfg, history)
  {
    var before, a := history[..|history| - 1], history[|history| - 1];
    CountIsExact(cfg, before);
    RefreshAccounted(cfg, Run(cfg, before), a.now);
    var t := Refreshed(cfg, Run(cfg, before), a.now);
    EmptyList(t.occurrences, Identity(a.event));
  }

  lemma {:induction false} EmptyList(m: Dict<Key, seq<Occurrence>>, k: Key)
    requires Total(m) == 0 && Unique(m)
    ensures ListFor(m, k) == []
    decreases |m|
  {
    if m != [] {
      EmptyList(m[..|m| - 1], k);
      ListForSnoc(m, k);
    }
  }
}
