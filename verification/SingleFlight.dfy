/** The single-flight cache (src/core/single-flight-cache.ts).  A request answers from the cache, joins
    the loader in flight for its key, or starts one; a loader's promise then resolves or rejects, and
    its `finally` handler runs as a later step of the event loop. */
module SingleFlight {
  import opened Collections

  /** Cached values are opaque to the cache. */
  type Value = string

  datatype Entry = Entry(value: Value, storedAt: int, expiresAt: int, staleUntil: int)

  datatype Answer = Fresh(value: Value, ageMs: int) | Stale(value: Value, ageMs: int) | Failure

  /** A loader's promise: what the request that started it saw, its outcome once it has one, and whether
      its `finally` handler has run. */
  datatype Flight = Flight(key: string, startedAt: int, hit: Option<Entry>, bypass: bool,
                              outcome: Option<Answer>, settled: bool)

  /** What a request gets: an answer at once, or the promise of a flight. */
  datatype Ticket = Served(answer: Answer) | Waiting(flight: nat)

  datatype Config = Config(ttlMs: nat, maxEntries: nat, staleIfErrorMs: nat)

  datatype State = State(cache: Dict<string, Entry>, inflight: map<string, nat>, flights: seq<Flight>)

  datatype Step =
    | Request(key: string, now: int, bypass: bool)
    | Resolve(flight: nat, value: Value, now: int)
    | Reject(flight: nat)
    | Settle(flight: nat)

  function Age(now: int, storedAt: int): int {
    if now - storedAt > 0 then now - storedAt else 0
  }

  /** Evicts the oldest key of an overfull cache, unless that key is empty: the source tests it for
      truth. */
  function Trimmed(cfg: Config, cache: Dict<string, Entry>): Dict<string, Entry> {
    if |cache| > cfg.maxEntries && cache[0].0 != "" then Remove(cache, cache[0].0) else cache
  }

  function Loaded(cfg: Config, value: Value, now: int): Entry {
    Entry(value, now, now + cfg.ttlMs, now + cfg.ttlMs + cfg.staleIfErrorMs)
  }

  /** Stores a value. */
  function Stored(cfg: Config, cache: Dict<string, Entry>, key: string, value: Value, now: int): Dict<string, Entry> {
    Trimmed(cfg, Put(cache, key, Loaded(cfg, value, now)))
  }

  function Requested(s: State, key: string, now: int, bypass: bool): (State, Ticket) {
    var hit := Get(s.cache, key);
    if !bypass && hit.Some? && hit.value.expiresAt > now then
      (s, Served(Fresh(hit.value.value, Age(now, hit.value.storedAt))))
    else if key in s.inflight && !bypass then (s, Waiting(s.inflight[key]))
    else
      var id := |s.flights|;
      (s.(inflight := s.inflight[key := id], flights := s.flights + [Flight(key, now, hit, bypass, None, false)]),
       Waiting(id))
  }

  /** What a rejected loader leaves its callers: the value seen at the start if still usable then. */
  function Fallback(f: Flight): Answer {
    if !f.bypass && f.hit.Some? && f.hit.value.staleUntil > f.startedAt then
      Stale(f.hit.value.value, Age(f.startedAt, f.hit.value.storedAt))
    else Failure
  }

  predicate Running(s: State, id: nat) {
    id < |s.flights| && s.flights[id].outcome.None?
  }

  predicate Unsettled(s: State, id: nat) {
    id < |s.flights| && !s.flights[id].settled
  }

  predicate Enabled(s: State, step: Step) {
    match step
    case Request(_, _, _) => true
    case Resolve(id, _, _) => Running(s, id)
    case Reject(id) => Running(s, id)
    case Settle(id) => Unsettled(s, id) && !Running(s, id)
  }

  function Apply(cfg: Config, s: State, step: Step): State {
    if !Enabled(s, step) then s else
    match step
    case Request(key, now, bypass) => Requested(s, key, now, bypass).0
    case Resolve(id, value, now) =>
      var f := s.flights[id];
      s.(cache := Stored(cfg, s.cache, f.key, value, now),
         flights := s.flights[id := f.(outcome := Some(Fresh(value, 0)))])
    case Reject(id) => s.(flights := s.flights[id := s.flights[id].(outcome := Some(Fallback(s.flights[id])))])
    case Settle(id) =>
      s.(inflight := s.inflight - {s.flights[id].key}, flights := s.flights[id := s.flights[id].(settled := true)])
  }

  // ---------- runs ----------

  /** A run with what its loaders produced, what its callers were given, and the time it has reached. */
  datatype World = World(state: State, produced: set<(string, Value)>, tickets: seq<(string, Ticket)>, clock: int)

  const START := World(State([], map[], []), {}, [], 0)

  function Next(cfg: Config, w: World, step: Step): World {
    var s := Apply(cfg, w.state, step);
    if !Enabled(w.state, step) then w else
    match step
    case Request(key, now, bypass) =>
      World(s, w.produced, w.tickets + [(key, Requested(w.state, key, now, bypass).1)], now)
    case Resolve(id, value, now) => World(s, w.produced + {(w.state.flights[id].key, value)}, w.tickets, now)
    case _ => w.(state := s)
  }

  function Run(cfg: Config, steps: seq<Step>): World
    decreases |steps|
  {
    if steps == [] then START else Next(cfg, Run(cfg, steps[..|steps| - 1]), steps[|steps| - 1])
  }

  /** The clock does not go back. */
  predicate Timely(w: World, step: Step) {
    step.Request? || step.Resolve? ==> step.now >= w.clock
  }

  predicate TimelyRun(cfg: Config, steps: seq<Step>)
    decreases |steps|
  {
    steps == [] || (TimelyRun(cfg, steps[..|steps| - 1]) && Timely(Run(cfg, steps[..|steps| - 1]), steps[|steps| - 1]))
  }

  /** The request bypasses a loader that is in flight for its key. */
  predicate Overtakes(s: State, step: Step) {
    step.Request? && step.bypass && step.key in s.inflight
  }

  predicate NothingOvertaken(cfg: Config, steps: seq<Step>)
    decreases |steps|
  {
    steps == []
    || (NothingOvertaken(cfg, steps[..|steps| - 1])
        && !Overtakes(Run(cfg, steps[..|steps| - 1]).state, steps[|steps| - 1]))
  }

  // ---------- the invariant ----------

  /** `inflight` names, for each key, the one flight for it whose handler has not run. */
  ghost predicate Coherent(s: State) {
    && (forall k :: k in s.inflight ==> Unsettled(s, s.inflight[k]) && s.flights[s.inflight[k]].key == k)
    && (forall id: nat :: Unsettled(s, id) ==> s.flights[id].key in s.inflight && s.inflight[s.flights[id].key] == id)
    && (forall id: nat :: Running(s, id) ==> Unsettled(s, id))
  }

  /** What `inflight` names for a key is a flight for that key, whatever was bypassed. */
  ghost predicate Linked(s: State) {
    forall k :: k in s.inflight ==> s.inflight[k] < |s.flights| && s.flights[s.inflight[k]].key == k
  }

  predicate GoodEntry(cfg: Config, key: string, e: Entry, produced: set<(string, Value)>, clock: int) {
    && (key, e.value) in produced && e.storedAt <= clock
    && e.expiresAt == e.storedAt + cfg.ttlMs && e.staleUntil == e.expiresAt + cfg.staleIfErrorMs
  }

  /** An answer is a value some loader produced for the key: fresh from its own load, fresh within the
      time to live, or stale within the grace period after it. */
  predicate GoodAnswer(cfg: Config, key: string, a: Answer, produced: set<(string, Value)>) {
    match a
    case Fresh(v, age) => (key, v) in produced && (age == 0 || 0 <= age < cfg.ttlMs)
    case Stale(v, age) => (key, v) in produced && cfg.ttlMs <= age < cfg.ttlMs + cfg.staleIfErrorMs
    case Failure => true
  }

  predicate GoodFlight(cfg: Config, f: Flight, produced: set<(string, Value)>, clock: int) {
    && f.startedAt <= clock
    && (f.hit.Some? ==> GoodEntry(cfg, f.key, f.hit.value, produced, clock))
    && (f.hit.Some? && !f.bypass ==> f.hit.value.storedAt <= f.startedAt && f.hit.value.expiresAt <= f.startedAt)
    && (f.outcome.Some? ==> GoodAnswer(cfg, f.key, f.outcome.value, produced))
  }

  ghost predicate GoodCache(cfg: Config, cache: Dict<string, Entry>, produced: set<(string, Value)>, clock: int) {
    Unique(cache) && forall i :: 0 <= i < |cache| ==> GoodEntry(cfg, cache[i].0, cache[i].1, produced, clock)
  }

  ghost predicate GoodFlights(cfg: Config, flights: seq<Flight>, produced: set<(string, Value)>, clock: int) {
    forall i :: 0 <= i < |flights| ==> GoodFlight(cfg, flights[i], produced, clock)
  }

  predicate GoodTicket(cfg: Config, w: World, key: string, t: Ticket) {
    match t
    case Served(a) => a.Fresh? && GoodAnswer(cfg, key, a, w.produced) && a.ageMs < cfg.ttlMs
    case Waiting(id) => id < |w.state.flights| && w.state.flights[id].key == key
  }

  ghost predicate GoodTickets(cfg: Config, w: World) {
    forall i :: 0 <= i < |w.tickets| ==> GoodTicket(cfg, w, w.tickets[i].0, w.tickets[i].1)
  }

  ghost predicate Good(cfg: Config, w: World) {
    && Linked(w.state)
    && GoodCache(cfg, w.state.cache, w.produced, w.clock)
    && GoodFlights(cfg, w.state.flights, w.produced, w.clock)
    && GoodTickets(cfg, w)
  }

  lemma CacheStaysGood(cfg: Config, cache: Dict<string, Entry>, produced: set<(string, Value)>, clock: int,
                       more: set<(string, Value)>, later: int)
    requires GoodCache(cfg, cache, produced, clock) && clock <= later
    ensures GoodCache(cfg, cache, produced + more, later)
  {
    forall i | 0 <= i < |cache| ensures GoodEntry(cfg, cache[i].0, cache[i].1, produced + more, later) {
      assert GoodEntry(cfg, cache[i].0, cache[i].1, produced, clock);
    }
  }

  lemma PutGood(cfg: Config, cache: Dict<string, Entry>, key: string, e: Entry, produced: set<(string, Value)>,
                clock: int)
    requires GoodCache(cfg, cache, produced, clock) && GoodEntry(cfg, key, e, produced, clock)
    ensures GoodCache(cfg, Put(cache, key, e), produced, clock)
  {
    PutFacts(cache, key, e);
  }

  lemma TrimmedGood(cfg: Config, cache: Dict<string, Entry>, produced: set<(string, Value)>, clock: int)
    requires GoodCache(cfg, cache, produced, clock)
    ensures GoodCache(cfg, Trimmed(cfg, cache), produced, clock)
  {
    if cache != [] {
      RemoveFacts(cache, cache[0].0);
      assert Remove(cache, cache[0].0) == cache[1..];
    }
  }

  lemma StoredGood(cfg: Config, cache: Dict<string, Entry>, produced: set<(string, Value)>, clock: int, key: string,
                   value: Value, now: int)
    requires GoodCache(cfg, cache, produced, clock) && clock <= now
    ensures GoodCache(cfg, Stored(cfg, cache, key, value, now), produced + {(key, value)}, now)
  {
    var e, more := Loaded(cfg, value, now), produced + {(key, value)};
    CacheStaysGood(cfg, cache, produced, clock, {(key, value)}, now);
    assert GoodEntry(cfg, key, e, more, now);
    PutGood(cfg, cache, key, e, more, now);
    TrimmedGood(cfg, Put(cache, key, e), more, now);
  }

  lemma GetGood(cfg: Config, cache: Dict<string, Entry>, produced: set<(string, Value)>, clock: int, key: string)
    requires GoodCache(cfg, cache, produced, clock)
    ensures Get(cache, key).Some? ==> GoodEntry(cfg, key, Get(cache, key).value, produced, clock)
  {
  }

  lemma RequestGood(cfg: Config, w: World, step: Step)
    requires Good(cfg, w) && step.Request? && Timely(w, step)
    ensures Good(cfg, Next(cfg, w, step))
  {
    var w' := Next(cfg, w, step);
    GetGood(cfg, w.state.cache, w.produced, w.clock, step.key);
    CacheStaysGood(cfg, w.state.cache, w.produced, w.clock, {}, step.now);
    FlightsStayGood(cfg, w.state.flights, w.produced, w.clock, {}, step.now);
    assert w.produced + {} == w.produced;
    assert GoodTicket(cfg, w', step.key, Requested(w.state, step.key, step.now, step.bypass).1);
    forall i | 0 <= i < |w.tickets| ensures GoodTicket(cfg, w', w.tickets[i].0, w.tickets[i].1) {
      assert GoodTicket(cfg, w, w.tickets[i].0, w.tickets[i].1);
    }
  }

  lemma FlightsStayGood(cfg: Config, flights: seq<Flight>, produced: set<(string, Value)>, clock: int,
                        more: set<(string, Value)>, later: int)
    requires GoodFlights(cfg, flights, produced, clock) && clock <= later
    ensures GoodFlights(cfg, flights, produced + more, later)
  {
    forall i | 0 <= i < |flights| ensures GoodFlight(cfg, flights[i], produced + more, later) {
      assert GoodFlight(cfg, flights[i], produced, clock);
    }
  }

  lemma TicketsStayGood(cfg: Config, w: World, w': World)
    requires GoodTickets(cfg, w) && w'.tickets == w.tickets && w.produced <= w'.produced
    requires |w'.state.flights| == |w.state.flights|
    requires forall i :: 0 <= i < |w.state.flights| ==> w'.state.flights[i].key == w.state.flights[i].key
    ensures GoodTickets(cfg, w')
  {
    forall i | 0 <= i < |w.tickets| ensures GoodTicket(cfg, w', w.tickets[i].0, w.tickets[i].1) {
      assert GoodTicket(cfg, w, w.tickets[i].0, w.tickets[i].1);
    }
  }

  lemma CompletionCoherent(s: State, id: nat, a: Answer, cache: Dict<string, Entry>)
    requires Coherent(s) && Running(s, id)
    ensures Coherent(s.(cache := cache, flights := s.flights[id := s.flights[id].(outcome := Some(a))]))
  {
    var t := s.(cache := cache, flights := s.flights[id := s.flights[id].(outcome := Some(a))]);
    forall k: nat ensures Unsettled(t, k) <==> Unsettled(s, k) {}
    forall k: nat | Running(t, k) ensures Running(s, k) {}
  }

  lemma SettleCoherent(s: State, id: nat)
    requires Coherent(s) && Unsettled(s, id) && !Running(s, id)
    ensures Coherent(s.(inflight := s.inflight - {s.flights[id].key},
            flights := s.flights[id := s.flights[id].(settled := true)]))
  {
    var t := s.(inflight := s.inflight - {s.flights[id].key},
        flights := s.flights[id := s.flights[id].(settled := true)]);
    forall k: nat ensures Unsettled(t, k) <==> k != id && Unsettled(s, k) {}
    forall k: nat | Running(t, k) ensures Running(s, k) {}
  }

  lemma FallbackGood(cfg: Config, f: Flight, produced: set<(string, Value)>, clock: int)
    requires GoodFlight(cfg, f, produced, clock)
    ensures GoodFlight(cfg, f.(outcome := Some(Fallback(f))), produced, clock)
  {
  }

  lemma ResolveGood(cfg: Config, w: World, step: Step)
    requires Good(cfg, w) && step.Resolve? && Timely(w, step) && Enabled(w.state, step)
    ensures Good(cfg, Next(cfg, w, step))
  {
    var f := w.state.flights[step.flight];
    var more := {(f.key, step.value)};
    StoredGood(cfg, w.state.cache, w.produced, w.clock, f.key, step.value, step.now);
    FlightsStayGood(cfg, w.state.flights, w.produced, w.clock, more, step.now);
    assert GoodFlight(cfg, f, w.produced + more, step.now);
    TicketsStayGood(cfg, w, Next(cfg, w, step));
  }

  lemma EndGood(cfg: Config, w: World, step: Step)
    requires Good(cfg, w) && (step.Reject? || step.Settle?) && Enabled(w.state, step)
    ensures Good(cfg, Next(cfg, w, step))
  {
    var f := w.state.flights[step.flight];
    assert GoodFlight(cfg, f, w.produced, w.clock);
    if step.Reject? {
      FallbackGood(cfg, f, w.produced, w.clock);
    }
    TicketsStayGood(cfg, w, Next(cfg, w, step));
  }

  lemma {:induction false} RunGood(cfg: Config, steps: seq<Step>)
    requires TimelyRun(cfg, steps)
    ensures Good(cfg, Run(cfg, steps))
    decreases |steps|
  {
    if steps != [] {
      var w, step := Run(cfg, steps[..|steps| - 1]), steps[|steps| - 1];
      RunGood(cfg, steps[..|steps| - 1]);
      if Enabled(w.state, step) {
        if step.Request? {
          RequestGood(cfg, w, step);
        } else if step.Resolve? {
          ResolveGood(cfg, w, step);
        } else {
          EndGood(cfg, w, step);
        }
      }
    }
  }

  // ---------- one loader per key ----------

  /** A request keeps `inflight` coherent exactly unless it bypasses a loader in flight for its key. */
  lemma BypassBreaksIff(s: State, key: string, now: int, bypass: bool)
    requires Coherent(s)
    ensures Coherent(Requested(s, key, now, bypass).0) <==> !(bypass && key in s.inflight)
  {
    var t := Requested(s, key, now, bypass).0;
    if bypass && key in s.inflight {
      assert Unsettled(t, s.inflight[key]) && Unsettled(t, |s.flights|);
    } else {
      forall id: nat | id < |s.flights| ensures Unsettled(t, id) <==> Unsettled(s, id) {}
    }
  }

  lemma StepCoherent(cfg: Config, s: State, step: Step)
    requires Coherent(s) && !Overtakes(s, step)
    ensures Coherent(Apply(cfg, s, step))
  {
    if Enabled(s, step) {
      match step
      case Request(key, now, bypass) => BypassBreaksIff(s, key, now, bypass);
      case Resolve(id, value, now) => CompletionCoherent(s, id, Fresh(value, 0),
          Stored(cfg, s.cache, s.flights[id].key, value, now));
      case Reject(id) => CompletionCoherent(s, id, Fallback(s.flights[id]), s.cache);
      case Settle(id) => SettleCoherent(s, id);
    }
  }

  lemma {:induction false} RunCoherent(cfg: Config, steps: seq<Step>)
    requires NothingOvertaken(cfg, steps)
    ensures Coherent(Run(cfg, steps).state)
    decreases |steps|
  {
    if steps != [] {
      RunCoherent(cfg, steps[..|steps| - 1]);
      StepCoherent(cfg, Run(cfg, steps[..|steps| - 1]).state, steps[|steps| - 1]);
    }
  }

  /** Main result.  Over every interleaving of requests, completions and handlers in which no request
      bypasses a loader in flight for its own key: at most one loader runs for a key, and `inflight` holds
      a key exactly from the start of its loader until its handler has run. */
  lemma {:induction false} AtMostOneLoader(cfg: Config, steps: seq<Step>, a: nat, b: nat)
    requires NothingOvertaken(cfg, steps)
    ensures var s := Run(cfg, steps).state;
            Unsettled(s, a) && Unsettled(s, b) && s.flights[a].key == s.flights[b].key ==> a == b
    ensures var s := Run(cfg, steps).state;
            Unsettled(s, a) <==> a < |s.flights| && s.flights[a].key in s.inflight && s.inflight[s.flights[a].key] == a
    ensures Running(Run(cfg, steps).state, a) ==> Unsettled(Run(cfg, steps).state, a)
  {
    RunCoherent(cfg, steps);
  }

  /** Main result.  The first request that does bypass a loader in flight leaves two unsettled flights for
      its key, with `inflight` naming only the newer one. */
  lemma {:induction false} OvertakingStartsSecondLoader(cfg: Config, steps: seq<Step>, step: Step)
    requires NothingOvertaken(cfg, steps) && Overtakes(Run(cfg, steps).state, step)
    ensures var before, s := Run(cfg, steps).state, Apply(cfg, Run(cfg, steps).state, step);
            var first, second := before.inflight[step.key], |before.flights|;
            && first != second && Unsettled(s, first) && Running(s, second)
            && s.flights[first].key == s.flights[second].key == step.key && s.inflight[step.key] == second
  {
    RunCoherent(cfg, steps);
  }

  /** Main result.  Every caller is given a value that some loader produced for its key: served from
      the cache below the time to live, or through its flight with age 0 or within the stale grace
      period; or, when the flight failed with nothing usable, a failure. */
  lemma CallersGetLoadedValues(cfg: Config, steps: seq<Step>, i: nat)
    requires TimelyRun(cfg, steps) && i < |Run(cfg, steps).tickets|
    ensures var w := Run(cfg, steps);
            var (key, t) := w.tickets[i];
            match t
            case Served(a) => a.Fresh? && (key, a.value) in w.produced && 0 <= a.ageMs < cfg.ttlMs
            case Waiting(id) =>
              && id < |w.state.flights| && w.state.flights[id].key == key
              && (w.state.flights[id].outcome.Some? ==>
                  GoodAnswer(cfg, key, w.state.flights[id].outcome.value, w.produced))
  {
    RunGood(cfg, steps);
    TicketAt(cfg, Run(cfg, steps), i);
  }

  lemma TicketAt(cfg: Config, w: World, i: nat)
    requires Good(cfg, w) && i < |w.tickets|
    ensures var (key, t) := w.tickets[i];
            match t
            case Served(a) => a.Fresh? && (key, a.value) in w.produced && 0 <= a.ageMs < cfg.ttlMs
            case Waiting(id) =>
              && id < |w.state.flights| && w.state.flights[id].key == key
              && (w.state.flights[id].outcome.Some? ==>
                  GoodAnswer(cfg, key, w.state.flights[id].outcome.value, w.produced))
  {
    var (key, t) := w.tickets[i];
    assert GoodTicket(cfg, w, key, t);
    if t.Waiting? {
      assert GoodFlight(cfg, w.state.flights[t.flight], w.produced, w.clock);
    }
  }

  // ---------- the size of the cache ----------

  /** When one store keeps a cache within its limit: always, except that a full cache whose oldest key
      is the empty string takes one more new key without evicting. */
  lemma StoredWithinLimitIff(cfg: Config, cache: Dict<string, Entry>, key: string, value: Value, now: int)
    requires Unique(cache) && |cache| <= cfg.maxEntries
    ensures |Stored(cfg, cache, key, value, now)| <= cfg.maxEntries <==>
            !(!Has(cache, key) && |cache| == cfg.maxEntries && (if cache == [] then key else cache[0].0) == "")
  {
    var e := Loaded(cfg, value, now);
    PutFacts(cache, key, e);
    var put := Put(cache, key, e);
    if |put| > 0 {
      RemoveFacts(put, put[0].0);
    }
  }

  predicate NoEmptyKey(steps: seq<Step>) {
    forall i :: 0 <= i < |steps| ==> !(steps[i].Request? && steps[i].key == "")
  }

  ghost predicate Slim(cfg: Config, s: State) {
    && Unique(s.cache) && |s.cache| <= cfg.maxEntries
    && (forall i :: 0 <= i < |s.cache| ==> s.cache[i].0 != "")
    && (forall i :: 0 <= i < |s.flights| ==> s.flights[i].key != "")
  }

  lemma StoredSlim(cfg: Config, cache: Dict<string, Entry>, key: string, value: Value, now: int)
    requires Unique(cache) && |cache| <= cfg.maxEntries && key != ""
    requires forall i :: 0 <= i < |cache| ==> cache[i].0 != ""
    ensures var c := Stored(cfg, cache, key, value, now);
            Unique(c) && |c| <= cfg.maxEntries && forall i :: 0 <= i < |c| ==> c[i].0 != ""
  {
    StoredWithinLimitIff(cfg, cache, key, value, now);
    var e := Loaded(cfg, value, now);
    PutFacts(cache, key, e);
    var put := Put(cache, key, e);
    if |put| > 0 {
      RemoveFacts(put, put[0].0);
    }
  }

  /** The cache never outgrows its limit in runs without the empty key, bypassing requests included. */
  lemma {:induction false} CacheBounded(cfg: Config, steps: seq<Step>)
    requires NoEmptyKey(steps)
    ensures Slim(cfg, Run(cfg, steps).state)
    decreases |steps|
  {
    if steps != [] {
      var w, step := Run(cfg, steps[..|steps| - 1]), steps[|steps| - 1];
      CacheBounded(cfg, steps[..|steps| - 1]);
      if step.Resolve? && Enabled(w.state, step) {
        StoredSlim(cfg, w.state.cache, w.state.flights[step.flight].key, step.value, step.now);
      }
    }
  }

  /** The oldest key is the empty string. */
  ghost predicate Pinned(cache: Dict<string, Entry>) {
    Unique(cache) && cache != [] && cache[0].0 == ""
  }

  lemma PinnedStore(cfg: Config, cache: Dict<string, Entry>, key: string, value: Value, now: int, k: string)
    requires Pinned(cache)
    ensures var c := Stored(cfg, cache, key, value, now);
            && Pinned(c) && |c| == |cache| + (if Has(cache, key) then 0 else 1)
            && (Has(c, k) <==> Has(cache, k) || k == key)
  {
    var e := Loaded(cfg, value, now);
    PutFacts(cache, key, e);
    HasIff(cache, k);
    HasIff(Put(cache, key, e), k);
    assert Put(cache, key, e)[0].0 == "";
  }

  /** A cache whose oldest key is the empty string never evicts again: every key it holds stays, whatever
      happens, and each new key that is loaded adds one. */
  lemma {:induction false} PinnedForever(cfg: Config, steps: seq<Step>, n: nat, k: string)
    requires n <= |steps| && Pinned(Run(cfg, steps[..n]).state.cache)
    ensures Pinned(Run(cfg, steps).state.cache)
    ensures |Run(cfg, steps[..n]).state.cache| <= |Run(cfg, steps).state.cache|
    ensures Has(Run(cfg, steps[..n]).state.cache, k) ==> Has(Run(cfg, steps).state.cache, k)
    decreases |steps|
  {
    if n == |steps| {
      assert steps[..n] == steps;
    } else {
      var before, step := steps[..|steps| - 1], steps[|steps| - 1];
      assert before[..n] == steps[..n];
      PinnedForever(cfg, before, n, k);
      var s := Run(cfg, before).state;
      if step.Resolve? && Enabled(s, step) {
        PinnedStore(cfg, s.cache, s.flights[step.flight].key, step.value, step.now, k);
      }
    }
  }

  /** After loading keys of length 0, 1, ... n - 1 in turn: nothing has been evicted. */
  ghost predicate Grown(s: State, n: nat) {
    && s.inflight == map[] && |s.flights| == |s.cache| == n
    && (n > 0 ==> s.cache[0].0 == "")
    && forall i :: 0 <= i < n ==> |s.cache[i].0| == i
  }

  lemma GrowOnce(cfg: Config, s: State, n: nat, key: string, value: Value)
    requires Grown(s, n) && |key| == n
    ensures var t := Apply(cfg, s, Request(key, 0, false));
            Grown(Apply(cfg, Apply(cfg, t, Resolve(n, value, 0)), Settle(n)), n + 1)
  {
    assert IndexOf(s.cache, key) == n;
    assert n == 0 ==> key == "";
    var t := Apply(cfg, s, Request(key, 0, false));
    assert t.inflight == map[key := n] && t.flights[n].key == key;
    var u := Apply(cfg, t, Resolve(n, value, 0));
    assert u.cache == s.cache + [(key, Loaded(cfg, value, 0))];
  }

  lemma {:induction false} RunNext(cfg: Config, steps: seq<Step>, step: Step)
    ensures Run(cfg, steps + [step]).state == Apply(cfg, Run(cfg, steps).state, step)
  {
    assert (steps + [step])[..|steps|] == steps;
  }

  lemma {:induction false} ThreeMore(cfg: Config, steps: seq<Step>, a: Step, b: Step, c: Step)
    ensures Run(cfg, steps + [a] + [b] + [c]).state
            == Apply(cfg, Apply(cfg, Apply(cfg, Run(cfg, steps).state, a), b), c)
  {
    RunNext(cfg, steps, a);
    RunNext(cfg, steps + [a], b);
    RunNext(cfg, steps + [a] + [b], c);
  }

  /** Such a cache is reachable, and grows without bound: requests and completions for the empty key and
      then for others leave every one of them cached, whatever the limit. */
  lemma {:induction false} EmptyKeyPinsTheCache(cfg: Config, value: Value, n: nat) returns (steps: seq<Step>)
    ensures Grown(Run(cfg, steps).state, n)
  {
    steps := [];
    if n > 0 {
      steps := EmptyKeyPinsTheCache(cfg, value, n - 1);
      var key := seq(n - 1, _ => 'x');
      GrowOnce(cfg, Run(cfg, steps).state, n - 1, key, value);
      ThreeMore(cfg, steps, Request(key, 0, false), Resolve(n - 1, value, 0), Settle(n - 1));
      steps := steps + [Request(key, 0, false)] + [Resolve(n - 1, value, 0)] + [Settle(n - 1)];
    }
  }

  /** When the handler of an overtaken flight runs, it removes the key although the newer loader for it
      is still unsettled; the next request then starts one more. */
  lemma SettlingForgetsTheOther(cfg: Config, s: State, first: nat, second: nat)
    requires Unsettled(s, first) && !Running(s, first) && Unsettled(s, second) && first != second
    requires s.flights[first].key == s.flights[second].key
    ensures var t := Apply(cfg, s, Settle(first));
            Unsettled(t, second) && Running(t, second) == Running(s, second) && t.flights[second].key !in t.inflight
  {
  }

  // ---------- the cache object ----------

  class SingleFlightCache {
    const cfg: Config
    var cache: Dict<string, Entry>
    var inflight: map<string, nat>
    var flights: seq<Flight>

    ghost function View(): State
      reads this
    {
      State(cache, inflight, flights)
    }

    constructor (cfg: Config)
      ensures View() == START.state && this.cfg == cfg
    {
      this.cfg := cfg;
      cache, inflight, flights := [], map[], [];
    }

    method GetWithMeta(key: string, now: int, bypass: bool) returns (t: Ticket)
      modifies this
      ensures (View(), t) == Requested(old(View()), key, now, bypass)
    {
      var hit := Get(cache, key);
      if !bypass && hit.Some? && hit.value.expiresAt > now {
        return Served(Fresh(hit.value.value, Age(now, hit.value.storedAt)));
      }
      if key in inflight && !bypass {
        return Waiting(inflight[key]);
      }
      var id := |flights|;
      flights := flights + [Flight(key, now, hit, bypass, None, false)];
      inflight := inflight[key := id];
      return Waiting(id);
    }

    method Set(key: string, value: Value, now: int)
      modifies `cache
      ensures cache == Stored(cfg, old(cache), key, value, now)
    {
      cache := Put(cache, key, Entry(value, now, now + cfg.ttlMs, now + cfg.ttlMs + cfg.staleIfErrorMs));
      if |cache| > cfg.maxEntries {
        var first := cache[0].0;
        if first != "" {
          cache := Remove(cache, first);
        }
      }
    }

    method OnLoaded(id: nat, value: Value, now: int)
      requires Running(View(), id)
      modifies this
      ensures View() == Apply(cfg, old(View()), Resolve(id, value, now))
    {
      Set(flights[id].key, value, now);
      flights := flights[id := flights[id].(outcome := Some(Fresh(value, 0)))];
    }

    method OnError(id: nat)
      requires Running(View(), id)
      modifies this
      ensures View() == Apply(cfg, old(View()), Reject(id))
    {
      flights := flights[id := flights[id].(outcome := Some(Fallback(flights[id])))];
    }

    method OnFinally(id: nat)
      requires Unsettled(View(), id) && !Running(View(), id)
      modifies this
      ensures View() == Apply(cfg, old(View()), Settle(id))
    {
      inflight := inflight - {flights[id].key};
      flights := flights[id := flights[id].(settled := true)];
    }
  }
}
