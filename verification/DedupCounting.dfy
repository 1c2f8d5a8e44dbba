/** What the matching amounts to for one identity: the number of accepted events is the maximum over
    the providers, whatever the order of arrival; an event with a provider id is suppressed exactly
    within the time to live of the previous one. */
module DedupCounting {
  import opened Collections
  import opened Deduplication

  /** How many occurrences a provider has been matched to. */
  function Slots(list: seq<Occurrence>, p: string): nat
    decreases |list|
  {
    if list == [] then 0
    else Slots(list[..|list| - 1], p) + if p in list[|list| - 1].sources then 1 else 0
  }

  /** How many arrivals of an identity came from a provider. */
  function From(history: seq<Arrival>, k: Key, p: string): nat
    decreases |history|
  {
    if history == [] then 0 else
    var before, a := history[..|history| - 1], history[|history| - 1];
    From(before, k, p) + if Identity(a.event) == k && a.event.source == p then 1 else 0
  }

  predicate AllYoung(list: seq<Occurrence>, now: int, ttlMs: nat) {
    forall i :: 0 <= i < |list| ==> Young(list[i], now, ttlMs)
  }

  /** At each arrival of the identity, no occurrence of it has expired. */
  predicate NoneExpires(ttlMs: nat, history: seq<Arrival>, k: Key)
    decreases |history|
  {
    history == []
    || var before, a := history[..|history| - 1], history[|history| - 1];
       NoneExpires(ttlMs, before, k)
       && (Identity(a.event) == k ==> AllYoung(Ideal(ttlMs, before, k), a.now, ttlMs))
  }

  /** Touching an occurrence that lacked the provider gives that provider one more slot and no other
      provider any. */
  lemma {:induction false} TouchUnseenSlots(list: seq<Occurrence>, source: string, now: int, ttlMs: nat, p: string)
    ensures var r := TouchLast(list, Unseen(source), source, now, ttlMs);
            r.Some? ==> Slots(r.value, p) == Slots(list, p) + (if p == source then 1 else 0)
    decreases |list|
  {
    if list != [] {
      var init, last := list[..|list| - 1], list[|list| - 1];
      TouchUnseenSlots(init, source, now, ttlMs, p);
      var r := TouchLast(list, Unseen(source), source, now, ttlMs);
      if Fits(Unseen(source), last, now, ttlMs) {
        assert r.value[..|init|] == init;
      } else if r.Some? {
        assert r.value[..|init|] == TouchLast(init, Unseen(source), source, now, ttlMs).value;
      }
    }
  }

  /** Failing to find one among occurrences that have not expired means that the provider has them all. */
  lemma {:induction false} NoneUnseen(list: seq<Occurrence>, source: string, now: int, ttlMs: nat)
    requires AllYoung(list, now, ttlMs) && TouchLast(list, Unseen(source), source, now, ttlMs).None?
    ensures Slots(list, source) == |list|
    decreases |list|
  {
    if list != [] {
      assert Young(list[|list| - 1], now, ttlMs);
      NoneUnseen(list[..|list| - 1], source, now, ttlMs);
    }
  }

  lemma {:induction false} SlotsBound(list: seq<Occurrence>, p: string)
    ensures Slots(list, p) <= |list|
    decreases |list|
  {
    if list != [] {
      SlotsBound(list[..|list| - 1], p);
    }
  }

  lemma SlotsAppend(list: seq<Occurrence>, o: Occurrence, p: string)
    ensures Slots(list + [o], p) == Slots(list, p) + if p in o.sources then 1 else 0
  {
    assert (list + [o])[..|list|] == list;
  }

  /** Every event without an id takes a slot that its provider did not have: of an occurrence already
      accepted when it is suppressed, of a new one when it is accepted. */
  lemma MatchTakesSlot(list: seq<Occurrence>, e: Event, now: int, ttlMs: nat, serial: nat, p: string)
    requires !HasId(e)
    ensures var (after, accepted) := Matched(list, e, now, ttlMs, serial);
            && Slots(after, p) == Slots(list, p) + (if p == e.source then 1 else 0)
            && |after| == |list| + (if accepted then 1 else 0)
  {
    TouchUnseenSlots(list, e.source, now, ttlMs, p);
    SlotsAppend(list, Created(e, now, serial), p);
  }

  /** A provider whose event is accepted while nothing has expired has a slot of every occurrence. */
  lemma AcceptedHasAll(list: seq<Occurrence>, e: Event, now: int, ttlMs: nat, serial: nat)
    requires AllYoung(list, now, ttlMs) && !HasId(e) && Matched(list, e, now, ttlMs, serial).1
    ensures var after := Matched(list, e, now, ttlMs, serial).0; Slots(after, e.source) == |after|
  {
    NoneUnseen(list, e.source, now, ttlMs);
    SlotsAppend(list, Created(e, now, serial), e.source);
  }

  /** The occurrences of an identity are as many as the slots of the provider that made the last one. */
  ghost predicate SomeProviderHasAll(list: seq<Occurrence>) {
    list == [] || exists p :: Slots(list, p) == |list|
  }

  /** Each arrival is a slot of its provider, and each acceptance an occurrence. */
  lemma {:induction false} SlotsAreArrivals(ttlMs: nat, history: seq<Arrival>, content: string, p: string)
    ensures var list := Ideal(ttlMs, history, ByContent(content));
            && Slots(list, p) == From(history, ByContent(content), p)
            && IdealAccepts(ttlMs, history, ByContent(content)) == |list|
    decreases |history|
  {
    if history != [] {
      var k := ByContent(content);
      var before, a := history[..|history| - 1], history[|history| - 1];
      SlotsAreArrivals(ttlMs, before, content, p);
      if Identity(a.event) == k {
        MatchTakesSlot(Ideal(ttlMs, before, k), a.event, a.now, ttlMs, |before|, p);
      }
    }
  }

  lemma MatchKeepsHasAll(list: seq<Occurrence>, e: Event, now: int, ttlMs: nat, serial: nat)
    requires AllYoung(list, now, ttlMs) && !HasId(e) && SomeProviderHasAll(list)
    ensures SomeProviderHasAll(Matched(list, e, now, ttlMs, serial).0)
  {
    var (after, accepted) := Matched(list, e, now, ttlMs, serial);
    if accepted {
      AcceptedHasAll(list, e, now, ttlMs, serial);
    } else if list != [] {
      var q :| Slots(list, q) == |list|;
      MatchTakesSlot(list, e, now, ttlMs, serial, q);
      SlotsBound(after, q);
      assert Slots(after, q) == |after|;
    }
  }

  lemma {:induction false} CountingInvariant(ttlMs: nat, history: seq<Arrival>, content: string)
    requires NoneExpires(ttlMs, history, ByContent(content))
    ensures SomeProviderHasAll(Ideal(ttlMs, history, ByContent(content)))
    decreases |history|
  {
    if history != [] {
      var k := ByContent(content);
      var before, a := history[..|history| - 1], history[|history| - 1];
      CountingInvariant(ttlMs, before, content);
      if Identity(a.event) == k {
        MatchKeepsHasAll(Ideal(ttlMs, before, k), a.event, a.now, ttlMs, |before|);
      }
    }
  }

  /** Repeats are never lost, expiry or not: at least as many events of an identity are accepted as any
      one provider sent. */
  lemma {:induction false} RepeatsAreKept(ttlMs: nat, history: seq<Arrival>, content: string, p: string)
    ensures From(history, ByContent(content), p) <= IdealAccepts(ttlMs, history, ByContent(content))
  {
    SlotsAreArrivals(ttlMs, history, content, p);
    SlotsBound(Ideal(ttlMs, history, ByContent(content)), p);
  }

  /** Main result.  For one identity without a provider id, as long as no occurrence of it expires, the
      number of accepted events is the largest number that any one provider sent: no provider sent
      more, and some provider sent exactly as many. */
  lemma AcceptsAreTheMaximum(ttlMs: nat, history: seq<Arrival>, content: string)
    requires NoneExpires(ttlMs, history, ByContent(content))
    ensures var n := IdealAccepts(ttlMs, history, ByContent(content));
            && (forall p :: From(history, ByContent(content), p) <= n)
            && (n > 0 ==> exists p :: From(history, ByContent(content), p) == n)
  {
    var k := ByContent(content);
    var list := Ideal(ttlMs, history, k);
    forall p ensures From(history, k, p) <= IdealAccepts(ttlMs, history, k) {
      RepeatsAreKept(ttlMs, history, content, p);
    }
    CountingInvariant(ttlMs, history, content);
    SlotsAreArrivals(ttlMs, history, content, "");
    if list != [] {
      var q :| Slots(list, q) == |list|;
      SlotsAreArrivals(ttlMs, history, content, q);
      assert From(history, k, q) == |list|;
    }
  }

  /** So the order of arrival does not matter: two histories in which every provider sent the identity
      equally often accept equally many. */
  lemma OrderDoesNotMatter(ttlMs: nat, a: seq<Arrival>, b: seq<Arrival>, content: string)
    requires NoneExpires(ttlMs, a, ByContent(content)) && NoneExpires(ttlMs, b, ByContent(content))
    requires forall p :: From(a, ByContent(content), p) == From(b, ByContent(content), p)
    ensures IdealAccepts(ttlMs, a, ByContent(content)) == IdealAccepts(ttlMs, b, ByContent(content))
  {
    AcceptsAreTheMaximum(ttlMs, a, content);
    AcceptsAreTheMaximum(ttlMs, b, content);
  }

  // ---------- when nothing expires ----------

  /** All occurrences were last seen within these times. */
  predicate SeenWithin(list: seq<Occurrence>, low: int, high: int) {
    forall i :: 0 <= i < |list| ==> low <= list[i].lastSeen <= high
  }

  lemma {:induction false} TouchSeenWithin(list: seq<Occurrence>, w: Wanted, source: string, now: int, ttlMs: nat,
                                           low: int, high: int)
    requires SeenWithin(list, low, high) && low <= now && high <= now
    ensures var r := TouchLast(list, w, source, now, ttlMs);
            r.Some? ==> SeenWithin(r.value, low, now)
    decreases |list|
  {
    if list != [] {
      TouchSeenWithin(list[..|list| - 1], w, source, now, ttlMs, low, high);
    }
  }

  lemma MatchSeenWithin(list: seq<Occurrence>, e: Event, now: int, ttlMs: nat, serial: nat, low: int, high: int)
    requires SeenWithin(list, low, high) && low <= now && high <= now
    ensures SeenWithin(Matched(list, e, now, ttlMs, serial).0, low, now)
  {
    TouchSeenWithin(list, Exact(e.providerEventId), e.source, now, ttlMs, low, high);
    TouchSeenWithin(list, Unseen(e.source), e.source, now, ttlMs, low, high);
  }

  lemma {:induction false} IdealSeenWithin(ttlMs: nat, history: seq<Arrival>, k: Key)
    requires NonDecreasing(history) && history != []
    ensures SeenWithin(Ideal(ttlMs, history, k), history[0].now, history[|history| - 1].now)
    decreases |history|
  {
    var before, a := history[..|history| - 1], history[|history| - 1];
    if before != [] {
      IdealSeenWithin(ttlMs, before, k);
      assert before[0] == history[0];
      MatchSeenWithin(Ideal(ttlMs, before, k), a.event, a.now, ttlMs, |before|, history[0].now,
          before[|before| - 1].now);
    }
  }

  /** A history no longer than the time to live expires nothing. */
  lemma {:induction false} ShortHistoriesKeepAll(ttlMs: nat, history: seq<Arrival>, k: Key)
    requires NonDecreasing(history)
    requires history != [] ==> history[|history| - 1].now - history[0].now <= ttlMs
    ensures NoneExpires(ttlMs, history, k)
    decreases |history|
  {
    if history != [] {
      var before, a := history[..|history| - 1], history[|history| - 1];
      if before != [] {
        assert before[0] == history[0];
        ShortHistoriesKeepAll(ttlMs, before, k);
        IdealSeenWithin(ttlMs, before, k);
      } else {
        assert NoneExpires(ttlMs, before, k);
        assert Ideal(ttlMs, before, k) == [];
        assert AllYoung([], a.now, ttlMs);
      }
    }
  }

  // ---------- events with a provider id ----------

  /** When the id was last received. */
  function LastArrival(history: seq<Arrival>, k: Key): Option<int>
    decreases |history|
  {
    if history == [] then None
    else if Identity(history[|history| - 1].event) == k then Some(history[|history| - 1].now)
    else LastArrival(history[..|history| - 1], k)
  }

  /** All occurrences carry the id, and the newest was last seen at the last arrival. */
  ghost predicate Tracks(list: seq<Occurrence>, id: string, last: Option<int>) {
    && (forall i :: 0 <= i < |list| ==> list[i].providerEventId == Some(id))
    && (last.None? <==> list == [])
    && (last.Some? ==>
          && (forall i :: 0 <= i < |list| ==> list[i].lastSeen <= last.value)
          && exists i :: 0 <= i < |list| && list[i].lastSeen == last.value)
  }

  lemma {:induction false} TouchExact(list: seq<Occurrence>, id: string, source: string, now: int, ttlMs: nat)
    requires forall i :: 0 <= i < |list| ==> list[i].providerEventId == Some(id) && list[i].lastSeen <= now
    ensures var r := TouchLast(list, Exact(Some(id)), source, now, ttlMs);
            && (r.None? <==> forall i :: 0 <= i < |list| ==> now - list[i].lastSeen > ttlMs)
            && (r.Some? ==>
                  && (forall i :: 0 <= i < |list| ==>
                      r.value[i].providerEventId == Some(id) && r.value[i].lastSeen <= now)
                  && exists i :: 0 <= i < |list| && r.value[i].lastSeen == now)
    decreases |list|
  {
    if list != [] {
      var init, last := list[..|list| - 1], list[|list| - 1];
      TouchExact(init, id, source, now, ttlMs);
      var r := TouchLast(list, Exact(Some(id)), source, now, ttlMs);
      if Fits(Exact(Some(id)), last, now, ttlMs) {
        assert r.value[|list| - 1].lastSeen == now;
        assert Young(list[|list| - 1], now, ttlMs);
      } else if r.Some? {
        var s := TouchLast(init, Exact(Some(id)), source, now, ttlMs).value;
        var i :| 0 <= i < |init| && s[i].lastSeen == now;
        assert r.value[i].lastSeen == now;
      } else {
        assert forall i :: 0 <= i < |init| ==> list[i] == init[i];
      }
    }
  }

  lemma {:induction false} NoYoungNoTouch(list: seq<Occurrence>, w: Wanted, source: string, now: int, ttlMs: nat)
    requires forall i :: 0 <= i < |list| ==> now - list[i].lastSeen > ttlMs
    ensures TouchLast(list, w, source, now, ttlMs).None?
    decreases |list|
  {
    if list != [] {
      NoYoungNoTouch(list[..|list| - 1], w, source, now, ttlMs);
    }
  }

  lemma MatchTracks(list: seq<Occurrence>, e: Event, now: int, ttlMs: nat, serial: nat, last: Option<int>)
    requires HasId(e) && Tracks(list, e.providerEventId.value, last) && (last.Some? ==> last.value <= now)
    ensures Tracks(Matched(list, e, now, ttlMs, serial).0, e.providerEventId.value, Some(now))
    ensures Matched(list, e, now, ttlMs, serial).1 <==> last.None? || now - last.value > ttlMs
  {
    var id := e.providerEventId.value;
    TouchExact(list, id, e.source, now, ttlMs);
    var exact := TouchLast(list, Exact(Some(id)), e.source, now, ttlMs);
    if exact.None? {
      NoYoungNoTouch(list, Unseen(e.source), e.source, now, ttlMs);
      assert (list + [Created(e, now, serial)])[|list|].lastSeen == now;
    }
  }

  lemma {:induction false} IdealTracks(ttlMs: nat, history: seq<Arrival>, id: string)
    requires NonDecreasing(history) && id != ""
    ensures Tracks(Ideal(ttlMs, history, ById(id)), id, LastArrival(history, ById(id)))
    ensures LastArrival(history, ById(id)).Some? ==>
            history != [] && LastArrival(history, ById(id)).value <= history[|history| - 1].now
    decreases |history|
  {
    if history != [] {
      var before, a := history[..|history| - 1], history[|history| - 1];
      IdealTracks(ttlMs, before, id);
      if Identity(a.event) == ById(id) {
        MatchTracks(Ideal(ttlMs, before, ById(id)), a.event, a.now, ttlMs, |before|, LastArrival(before, ById(id)));
      }
    }
  }

  /** Main result.  An event with a provider id is accepted exactly when that id has not been received,
      accepted or not and from whatever provider, within the time to live. */
  lemma IdIsSuppressedWithinTtl(ttlMs: nat, history: seq<Arrival>, e: Event, now: int)
    requires NonDecreasing(history) && HasId(e) && (history != [] ==> history[|history| - 1].now <= now)
    ensures var last := LastArrival(history, Identity(e));
            Matched(Ideal(ttlMs, history, Identity(e)), e, now, ttlMs, |history|).1 <==>
                last.None? || now - last.value > ttlMs
  {
    IdealTracks(ttlMs, history, e.providerEventId.value);
    MatchTracks(Ideal(ttlMs, history, Identity(e)), e, now, ttlMs, |history|, LastArrival(history, Identity(e)));
  }
}
