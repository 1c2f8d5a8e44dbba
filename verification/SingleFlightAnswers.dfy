/** What each caller of the single-flight cache must get, said of the run alone: which load the cache holds for a
    key, when a request is answered from it, and what a failing loader leaves. */
module SingleFlightAnswers {
  import opened Collections
  import opened SingleFlight

  // ---------- what one step leaves alone ----------

  lemma {:induction false} WorldNext(cfg: Config, steps: seq<Step>, step: Step)
    ensures Run(cfg, steps + [step]) == Next(cfg, Run(cfg, steps), step)
  {
    assert (steps + [step])[..|steps|] == steps;
  }

  /** A flight keeps what it started with, and its outcome once it has one. */
  predicate SameFlight(f: Flight, g: Flight) {
    && g.key == f.key && g.startedAt == f.startedAt && g.hit == f.hit && g.bypass == f.bypass
    && (f.outcome.Some? ==> g.outcome == f.outcome)
  }

  lemma StepKeepsFlights(cfg: Config, w: World, step: Step, id: nat)
    requires id < |w.state.flights|
    ensures var s := Next(cfg, w, step).state; id < |s.flights| && SameFlight(w.state.flights[id], s.flights[id])
  {
  }

  lemma {:induction false} RunKeepsFlights(cfg: Config, steps: seq<Step>, n: nat, id: nat)
    requires n <= |steps| && id < |Run(cfg, steps[..n]).state.flights|
    ensures id < |Run(cfg, steps).state.flights|
    ensures SameFlight(Run(cfg, steps[..n]).state.flights[id], Run(cfg, steps).state.flights[id])
    decreases |steps|
  {
    if n == |steps| {
      assert steps[..n] == steps;
    } else {
      var before := steps[..|steps| - 1];
      assert before[..n] == steps[..n];
      RunKeepsFlights(cfg, before, n, id);
      StepKeepsFlights(cfg, Run(cfg, before), steps[|steps| - 1], id);
    }
  }

  // ---------- the request that started a flight ----------

  /** The j-th step of the run is the request that started the flight. */
  predicate Starts(cfg: Config, steps: seq<Step>, j: nat, id: nat) {
    && j < |steps| && steps[j].Request?
    && |Run(cfg, steps[..j]).state.flights| == id < |Run(cfg, steps[..j + 1]).state.flights|
  }

  lemma {:induction false} StartedFlight(cfg: Config, steps: seq<Step>, j: nat, id: nat)
    requires Starts(cfg, steps, j, id)
    ensures id < |Run(cfg, steps).state.flights|
    ensures var f, r := Run(cfg, steps).state.flights[id], steps[j];
            && f.key == r.key && f.startedAt == r.now && f.bypass == r.bypass
            && f.hit == Get(Run(cfg, steps[..j]).state.cache, r.key)
  {
    assert steps[..j + 1] == steps[..j] + [steps[j]];
    WorldNext(cfg, steps[..j], steps[j]);
    RunKeepsFlights(cfg, steps, j + 1, id);
  }

  lemma {:induction false} EveryFlightStarts(cfg: Config, steps: seq<Step>, id: nat) returns (j: nat)
    requires id < |Run(cfg, steps).state.flights|
    ensures Starts(cfg, steps, j, id)
    decreases |steps|
  {
    var before, step := steps[..|steps| - 1], steps[|steps| - 1];
    if id < |Run(cfg, before).state.flights| {
      j := EveryFlightStarts(cfg, before, id);
      assert steps[..j] == before[..j] && steps[..j + 1] == before[..j + 1];
    } else {
      j := |steps| - 1;
      assert steps[..j + 1] == steps;
    }
  }

  // ---------- what a flight's callers get ----------

  /** What the cache held for the key when the step happened, and since when. */
  function HeldAt(cfg: Config, steps: seq<Step>, j: nat, key: string): Option<(Value, int)>
    requires j <= |steps|
  {
    var e := Get(Run(cfg, steps[..j]).state.cache, key);
    if e.Some? then Some((e.value.value, e.value.storedAt)) else None
  }

  lemma {:induction false} PrefixTimely(cfg: Config, steps: seq<Step>, n: nat)
    requires n <= |steps| && TimelyRun(cfg, steps)
    ensures TimelyRun(cfg, steps[..n])
    ensures n < |steps| ==> Timely(Run(cfg, steps[..n]), steps[n])
    decreases |steps|
  {
    if n == |steps| {
      assert steps[..n] == steps;
    } else if n < |steps| - 1 {
      assert steps[..|steps| - 1][..n] == steps[..n];
      PrefixTimely(cfg, steps[..|steps| - 1], n);
    }
  }

  lemma {:induction false} HeldEntry(cfg: Config, steps: seq<Step>, j: nat, key: string)
    requires TimelyRun(cfg, steps) && j <= |steps|
    ensures var e := Get(Run(cfg, steps[..j]).state.cache, key);
            e.Some? ==>
              && e.value.storedAt <= Run(cfg, steps[..j]).clock
              && e.value.expiresAt == e.value.storedAt + cfg.ttlMs
              && e.value.staleUntil == e.value.storedAt + cfg.ttlMs + cfg.staleIfErrorMs
  {
    PrefixTimely(cfg, steps, j);
    RunGood(cfg, steps[..j]);
    var w := Run(cfg, steps[..j]);
    GetGood(cfg, w.state.cache, w.produced, w.clock, key);
  }

  /** The answer of a flight whose loader failed, from the request that started it and what the cache held for its
      key then. */
  function AfterFailure(cfg: Config, request: Step, held: Option<(Value, int)>): Answer
    requires request.Request?
  {
    if held.Some? && !request.bypass && request.now < held.value.1 + cfg.ttlMs + cfg.staleIfErrorMs then
      Stale(held.value.0, request.now - held.value.1)
    else Failure
  }

  lemma FallbackMeans(cfg: Config, f: Flight, request: Step, held: Option<(Value, int)>)
    requires request.Request? && f.startedAt == request.now && f.bypass == request.bypass
    requires f.hit.Some? <==> held.Some?
    requires f.hit.Some? ==>
               && f.hit.value.value == held.value.0 && f.hit.value.storedAt == held.value.1 <= request.now
               && f.hit.value.staleUntil == held.value.1 + cfg.ttlMs + cfg.staleIfErrorMs
    ensures Fallback(f) == AfterFailure(cfg, request, held)
  {
  }

  lemma {:induction false} RejectAnswers(cfg: Config, steps: seq<Step>, n: nat, id: nat)
    requires n < |steps| && steps[n] == Reject(id) && Running(Run(cfg, steps[..n]).state, id)
    ensures id < |Run(cfg, steps).state.flights|
    ensures Run(cfg, steps).state.flights[id].outcome == Some(Fallback(Run(cfg, steps[..n]).state.flights[id]))
  {
    assert steps[..n + 1] == steps[..n] + [steps[n]];
    WorldNext(cfg, steps[..n], steps[n]);
    RunKeepsFlights(cfg, steps, n + 1, id);
  }

  lemma {:induction false} StartsEarlier(cfg: Config, steps: seq<Step>, n: nat, j: nat, id: nat)
    requires j < n <= |steps| && Starts(cfg, steps, j, id)
    ensures Starts(cfg, steps[..n], j, id)
    ensures HeldAt(cfg, steps[..n], j, steps[j].key) == HeldAt(cfg, steps, j, steps[j].key)
  {
    assert steps[..n][..j] == steps[..j] && steps[..n][..j + 1] == steps[..j + 1];
  }

  lemma {:induction false} HeldWhenStarted(cfg: Config, steps: seq<Step>, j: nat, id: nat)
    requires TimelyRun(cfg, steps) && Starts(cfg, steps, j, id)
    ensures id < |Run(cfg, steps).state.flights|
    ensures Fallback(Run(cfg, steps).state.flights[id]) ==
            AfterFailure(cfg, steps[j], HeldAt(cfg, steps, j, steps[j].key))
  {
    StartedFlight(cfg, steps, j, id);
    HeldEntry(cfg, steps, j, steps[j].key);
    PrefixTimely(cfg, steps, j);
    FallbackMeans(cfg, Run(cfg, steps).state.flights[id], steps[j], HeldAt(cfg, steps, j, steps[j].key));
  }

  /** Main result.  In every run, a flight whose loader fails answers with the value that the cache held for its
      key when it was requested, at the age it had then, exactly when there was one still within both periods and
      the request did not bypass the cache; otherwise it fails.  The answer never changes. */
  lemma {:induction false} FailedLoadAnswers(cfg: Config, steps: seq<Step>, n: nat, id: nat, j: nat)
    requires TimelyRun(cfg, steps) && n < |steps| && steps[n] == Reject(id) && Running(Run(cfg, steps[..n]).state, id)
    requires j < n && Starts(cfg, steps, j, id)
    ensures id < |Run(cfg, steps).state.flights|
    ensures Run(cfg, steps).state.flights[id].outcome ==
            Some(AfterFailure(cfg, steps[j], HeldAt(cfg, steps, j, steps[j].key)))
  {
    RejectAnswers(cfg, steps, n, id);
    PrefixTimely(cfg, steps, n);
    StartsEarlier(cfg, steps, n, j, id);
    HeldWhenStarted(cfg, steps[..n], j, id);
  }

  /** A flight whose loader succeeds answers with the value loaded, and that never changes either. */
  lemma {:induction false} LoadAnswers(cfg: Config, steps: seq<Step>, n: nat, id: nat, value: Value, now: int)
    requires n < |steps| && steps[n] == Resolve(id, value, now) && Running(Run(cfg, steps[..n]).state, id)
    ensures id < |Run(cfg, steps).state.flights| && Run(cfg, steps).state.flights[id].outcome == Some(Fresh(value, 0))
  {
    assert steps[..n + 1] == steps[..n] + [steps[n]];
    WorldNext(cfg, steps[..n], steps[n]);
    RunKeepsFlights(cfg, steps, n + 1, id);
  }

  // ---------- what a request gets ----------

  /** One request, from what the cache holds for its key. */
  lemma RequestedMeans(s: State, key: string, now: int, bypass: bool, held: Option<(Value, int)>, ttlMs: nat)
    requires Coherent(s) && (held.Some? <==> Get(s.cache, key).Some?)
    requires held.Some? ==>
               var e := Get(s.cache, key).value;
               held.value == (e.value, e.storedAt) && e.storedAt <= now && e.expiresAt == e.storedAt + ttlMs
    ensures var (t, ticket) := Requested(s, key, now, bypass);
            if !bypass && held.Some? && now < held.value.1 + ttlMs then
              t == s && ticket == Served(Fresh(held.value.0, now - held.value.1))
            else if !bypass && exists id: nat :: Unsettled(s, id) && s.flights[id].key == key then
              t == s && ticket.Waiting? && Unsettled(s, ticket.flight) && s.flights[ticket.flight].key == key
            else
              && ticket == Waiting(|s.flights|) && |t.flights| == |s.flights| + 1
              && t.flights[..|s.flights|] == s.flights && Running(t, |s.flights|) && t.cache == s.cache
  {
  }

  /** Main result.  A request that does not bypass the cache is answered from it exactly when it holds a value for
      the key loaded less than the time to live ago, and else joins the loader not yet settled for the key if
      there is one; in every other case it starts a loader of its own. */
  lemma {:induction false} RequestGets(cfg: Config, steps: seq<Step>, key: string, now: int, bypass: bool)
    requires TimelyRun(cfg, steps + [Request(key, now, bypass)]) && NothingOvertaken(cfg, steps)
    ensures var w, w' := Run(cfg, steps), Run(cfg, steps + [Request(key, now, bypass)]);
            var held := HeldAt(cfg, steps, |steps|, key);
            && |w'.tickets| == |w.tickets| + 1 && w'.tickets[..|w.tickets|] == w.tickets
            && var (k, ticket) := w'.tickets[|w.tickets|];
               k == key
               && if !bypass && held.Some? && now < held.value.1 + cfg.ttlMs then
                 w'.state == w.state && ticket == Served(Fresh(held.value.0, now - held.value.1))
               else if !bypass && exists id: nat :: Unsettled(w.state, id) && w.state.flights[id].key == key then
                 && w'.state == w.state && ticket.Waiting?
                 && Unsettled(w.state, ticket.flight) && w.state.flights[ticket.flight].key == key
               else
                 && ticket == Waiting(|w.state.flights|) && |w'.state.flights| == |w.state.flights| + 1
                 && w'.state.flights[..|w.state.flights|] == w.state.flights
                 && Running(w'.state, |w.state.flights|) && w'.state.cache == w.state.cache
  {
    var w, r := Run(cfg, steps), Request(key, now, bypass);
    RunCoherent(cfg, steps);
    RequestTime(cfg, steps, r);
    RequestedMeans(w.state, key, now, bypass, HeldAt(cfg, steps, |steps|, key), cfg.ttlMs);
    WorldNext(cfg, steps, r);
  }

  lemma {:induction false} RequestTime(cfg: Config, steps: seq<Step>, r: Step)
    requires r.Request? && TimelyRun(cfg, steps + [r])
    ensures var e, held := Get(Run(cfg, steps).state.cache, r.key), HeldAt(cfg, steps, |steps|, r.key);
            && (held.Some? <==> e.Some?)
            && (held.Some? ==>
                  && held.value == (e.value.value, e.value.storedAt) && e.value.storedAt <= r.now
                  && e.value.expiresAt == e.value.storedAt + cfg.ttlMs)
  {
    assert (steps + [r])[..|steps|] == steps && (steps + [r])[|steps|] == r;
    PrefixTimely(cfg, steps + [r], |steps|);
    HeldEntry(cfg, steps, |steps|, r.key);
    assert steps[..|steps|] == steps;
  }

  // ---------- what the cache holds ----------

  /** The last value loaded for the key, and when. */
  function LastLoad(cfg: Config, steps: seq<Step>, key: string): Option<(Value, int)>
    decreases |steps|
  {
    if steps == [] then None else
    var before, step := steps[..|steps| - 1], steps[|steps| - 1];
    var s := Run(cfg, before).state;
    if step.Resolve? && Running(s, step.flight) && s.flights[step.flight].key == key then Some((step.value, step.now))
    else LastLoad(cfg, before, key)
  }

  lemma {:induction false} PutKeys(cache: Dict<string, Entry>, key: string, e: Entry)
    ensures Keys(Put(cache, key, e)) == Keys(cache) + if Has(cache, key) then [] else [key]
  {
  }

  lemma {:induction false} RemoveFirst(cache: Dict<string, Entry>)
    requires cache != []
    ensures Remove(cache, cache[0].0) == cache[1..] && Keys(cache[1..]) == Keys(cache)[1..]
  {
    assert IndexOf(cache, cache[0].0) == 0;
  }

  lemma {:induction false} TrimmedMeans(cfg: Config, cache: Dict<string, Entry>, k: string)
    requires Unique(cache) && cache != []
    ensures var c, cut := Trimmed(cfg, cache), |cache| > cfg.maxEntries && cache[0].0 != "";
            && Unique(c) && Keys(c) == (if cut then Keys(cache)[1..] else Keys(cache))
            && Get(c, k) == if cut && k == cache[0].0 then None else Get(cache, k)
  {
    var oldest := cache[0].0;
    if |cache| > cfg.maxEntries && oldest != "" {
      assert Trimmed(cfg, cache) == Remove(cache, oldest);
      RemoveFacts(cache, oldest);
      RemoveFirst(cache);
    }
  }

  /** A store puts a new key last and leaves a known one in its place; when that is more than the limit, the key
      that has been there longest goes, unless it is the empty string.  The other entries stay as they are. */
  lemma {:induction false} StoreEvictsOldest(cfg: Config, cache: Dict<string, Entry>, key: string, value: Value,
                                            now: int, k: string)
    requires Unique(cache)
    ensures var c := Stored(cfg, cache, key, value, now);
            var keys := Keys(cache) + if Has(cache, key) then [] else [key];
            var cut := |keys| > cfg.maxEntries && keys[0] != "";
            && Unique(c) && Keys(c) == (if cut then keys[1..] else keys)
            && Get(c, k) == if cut && k == keys[0] then None
                            else if k == key then Some(Loaded(cfg, value, now))
                            else Get(cache, k)
  {
    var e := Loaded(cfg, value, now);
    var put := Put(cache, key, e);
    PutFacts(cache, key, e);
    PutKeys(cache, key, e);
    assert Keys(put)[0] == put[0].0;
    TrimmedMeans(cfg, put, k);
  }

  /** Main result.  Whatever the cache holds for a key is the last value loaded for it, since it was loaded. */
  lemma {:induction false} CacheHoldsLastLoad(cfg: Config, steps: seq<Step>, key: string)
    ensures Unique(Run(cfg, steps).state.cache)
    ensures var e := Get(Run(cfg, steps).state.cache, key);
            e.Some? ==> LastLoad(cfg, steps, key) == Some((e.value.value, e.value.storedAt))
    decreases |steps|
  {
    if steps != [] {
      var before, step := steps[..|steps| - 1], steps[|steps| - 1];
      var s := Run(cfg, before).state;
      CacheHoldsLastLoad(cfg, before, key);
      if step.Resolve? && Running(s, step.flight) {
        StoreEvictsOldest(cfg, s.cache, s.flights[step.flight].key, step.value, step.now, key);
      }
    }
  }
}
