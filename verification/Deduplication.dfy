/** One-to-one occurrence matching (src/core/deduplicator.ts) as functions on values: what one event
    does to the occurrences of its identity, and what pruning does to all of them.  `Deduplicator`
    shows that the object computes these functions in place. */
module Deduplication {
  import opened Collections
  import opened Sorting

  /** An event as the deduplicator sees it: the content of its identity, its provider, and the
      provider's own id for it, which counts as absent when empty. */
  datatype Event = Event(content: string, source: string, providerEventId: Option<string>)

  datatype Key = ById(id: string) | ByContent(content: string)

  /** One accepted occurrence.  `serial` is the number of the call that created it, and stands for the
      identity of the object. */
  datatype Occurrence = Occurrence(serial: nat, sources: map<string, int>, createdAt: int, lastSeen: int,
                                   providerEventId: Option<string>)

  datatype Config = Config(ttlMs: nat, maxEntries: nat)

  datatype State = State(occurrences: Dict<Key, seq<Occurrence>>, entryCount: int, lastPruneAt: int, calls: nat)

  const START := State([], 0, 0, 0)

  predicate HasId(e: Event) {
    e.providerEventId.Some? && e.providerEventId.value != ""
  }

  function Identity(e: Event): Key {
    if HasId(e) then ById(e.providerEventId.value) else ByContent(e.content)
  }

  // ---------- matching ----------

  /** What a search looks for among the unexpired occurrences: the exact provider id, or one that has
      not seen this provider yet. */
  datatype Wanted = Exact(id: Option<string>) | Unseen(source: string)

  predicate Young(o: Occurrence, now: int, ttlMs: nat) {
    now - o.lastSeen <= ttlMs
  }

  predicate Fits(w: Wanted, o: Occurrence, now: int, ttlMs: nat) {
    Young(o, now, ttlMs)
    && match w
       case Exact(id) => o.providerEventId == id
       case Unseen(source) => source !in o.sources
  }

  function Touch(o: Occurrence, source: string, now: int): Occurrence {
    o.(sources := o.sources[source := now], lastSeen := now)
  }

  /** Touches the last occurrence that fits, if any does. */
  function TouchLast(list: seq<Occurrence>, w: Wanted, source: string, now: int,
                     ttlMs: nat): (r: Option<seq<Occurrence>>)
    ensures r.Some? ==> |r.value| == |list|
    decreases |list|
  {
    if list == [] then None
    else
      var init, last := list[..|list| - 1], list[|list| - 1];
      if Fits(w, last, now, ttlMs) then Some(init + [Touch(last, source, now)])
      else
        var r := TouchLast(init, w, source, now, ttlMs);
        if r.Some? then Some(r.value + [last]) else None
  }

  function Created(e: Event, now: int, serial: nat): Occurrence {
    Occurrence(serial, map[e.source := now], now, now, e.providerEventId)
  }

  /** The occurrences of an identity after one of its events, and whether the event is accepted. */
  function Matched(list: seq<Occurrence>, e: Event, now: int, ttlMs: nat, serial: nat): (seq<Occurrence>, bool) {
    var exact := if HasId(e) then TouchLast(list, Exact(e.providerEventId), e.source, now, ttlMs) else None;
    if exact.Some? then (exact.value, false)
    else
      var unseen := TouchLast(list, Unseen(e.source), e.source, now, ttlMs);
      if unseen.Some? then (unseen.value, false) else (list + [Created(e, now, serial)], true)
  }

  // ---------- pruning ----------

  /** Which occurrences a prune keeps. */
  datatype Rule = SeenSince(cutoff: int) | NotAmong(serials: set<nat>)

  predicate Keeps(rule: Rule, o: Occurrence) {
    match rule
    case SeenSince(cutoff) => o.lastSeen >= cutoff
    case NotAmong(serials) => o.serial !in serials
  }

  function Kept(list: seq<Occurrence>, rule: Rule): (r: seq<Occurrence>)
    ensures |r| <= |list|
    decreases |list|
  {
    if list == [] then []
    else Kept(list[..|list| - 1], rule) + if Keeps(rule, list[|list| - 1]) then [list[|list| - 1]] else []
  }

  /** Filters every list, and drops the identities left with none. */
  function KeptAll(m: Dict<Key, seq<Occurrence>>, rule: Rule): Dict<Key, seq<Occurrence>>
    decreases |m|
  {
    if m == [] then []
    else
      var (k, list) := m[|m| - 1];
      KeptAll(m[..|m| - 1], rule) + if Kept(list, rule) != [] then [(k, Kept(list, rule))] else []
  }

  /** All occurrences, identity by identity. */
  function Flatten(m: Dict<Key, seq<Occurrence>>): seq<Occurrence>
    decreases |m|
  {
    if m == [] then [] else Flatten(m[..|m| - 1]) + m[|m| - 1].1
  }

  function Total(m: Dict<Key, seq<Occurrence>>): nat {
    |Flatten(m)|
  }

  function Ranked(os: seq<Occurrence>): (r: seq<Keyed<nat>>)
    ensures |r| == |os|
    ensures forall i :: 0 <= i < |os| ==> r[i] == Keyed(os[i].lastSeen as real, os[i].serial)
  {
    seq(|os|, i requires 0 <= i < |os| => Keyed(os[i].lastSeen as real, os[i].serial))
  }

  function Items(s: seq<Keyed<nat>>, n: nat): set<nat> {
    set i | 0 <= i < |s| && i < n :: s[i].item
  }

  /** The occurrences least recently seen, oldest list first among equals. */
  function Oldest(os: seq<Occurrence>, n: nat): set<nat> {
    Items(Sort(Ranked(os)), n)
  }

  /** Filters every list and takes what goes off the entry count. */
  function KeptOnly(s: State, rule: Rule): State {
    var rest := KeptAll(s.occurrences, rule);
    s.(occurrences := rest, entryCount := s.entryCount - (Total(s.occurrences) - Total(rest)))
  }

  function Excess(count: int, maxEntries: nat): nat {
    if count - Target(maxEntries) > 0 then count - Target(maxEntries) else 0
  }

  function Pruned(cfg: Config, s: State, now: int): State {
    if s.entryCount <= cfg.maxEntries && s.entryCount < 1000 then s
    else
      var live := KeptOnly(s, SeenSince(now - cfg.ttlMs));
      if live.entryCount <= cfg.maxEntries then live
      else KeptOnly(live, NotAmong(Oldest(Flatten(live.occurrences), Excess(live.entryCount, cfg.maxEntries))))
  }

  /** The pause between prunes: half the time to live, but at least 250 and at most 1000 milliseconds;
      doubled here to stay with integers. */
  function DoublePause(ttlMs: nat): nat {
    if ttlMs <= 500 then 500 else if ttlMs <= 2000 then ttlMs else 2000
  }

  predicate PruneDue(cfg: Config, s: State, now: int) {
    s.entryCount > cfg.maxEntries || 2 * (now - s.lastPruneAt) > DoublePause(cfg.ttlMs)
  }

  function Refreshed(cfg: Config, s: State, now: int): State {
    if PruneDue(cfg, s, now) then Pruned(cfg, s, now).(lastPruneAt := now) else s
  }

  function ListFor(m: Dict<Key, seq<Occurrence>>, k: Key): seq<Occurrence> {
    var list := Get(m, k);
    if list.Some? then list.value else []
  }

  /** Matches an event with the occurrences of its identity. */
  function Entered(cfg: Config, t: State, e: Event, now: int): (State, bool) {
    var k := Identity(e);
    var (list, isNew) := Matched(ListFor(t.occurrences, k), e, now, cfg.ttlMs, t.calls);
    (State(Put(t.occurrences, k, list), t.entryCount + if isNew then 1 else 0, t.lastPruneAt, t.calls + 1), isNew)
  }

  /** The effect of one call of `accept`. */
  function Accepted(cfg: Config, s: State, e: Event, now: int): (State, bool) {
    Entered(cfg, Refreshed(cfg, s, now), e, now)
  }

  // ---------- runs ----------

  datatype Arrival = Arrival(event: Event, now: int)

  function Run(cfg: Config, history: seq<Arrival>): State
    decreases |history|
  {
    if history == [] then START
    else Accepted(cfg, Run(cfg, history[..|history| - 1]), history[|history| - 1].event, history[|history| - 1].now).0
  }

  /** The answer to the last arrival. */
  predicate LastAccepted(cfg: Config, history: seq<Arrival>)
    requires history != []
  {
    var a := history[|history| - 1];
    Accepted(cfg, Run(cfg, history[..|history| - 1]), a.event, a.now).1
  }

  /** The occurrences of one identity when nothing is ever pruned. */
  function Ideal(ttlMs: nat, history: seq<Arrival>, k: Key): seq<Occurrence>
    decreases |history|
  {
    if history == [] then [] else
    var before, a := history[..|history| - 1], history[|history| - 1];
    if Identity(a.event) == k then Matched(Ideal(ttlMs, before, k), a.event, a.now, ttlMs, |before|).0
    else Ideal(ttlMs, before, k)
  }

  /** How many arrivals of an identity are accepted when nothing is ever pruned. */
  function IdealAccepts(ttlMs: nat, history: seq<Arrival>, k: Key): nat
    decreases |history|
  {
    if history == [] then 0 else
    var before, a := history[..|history| - 1], history[|history| - 1];
    IdealAccepts(ttlMs, before, k)
    + if Identity(a.event) == k && Matched(Ideal(ttlMs, before, k), a.event, a.now, ttlMs, |before|).1 then 1 else 0
  }

  predicate NonDecreasing(history: seq<Arrival>) {
    forall i, j :: 0 <= i < j < |history| ==> history[i].now <= history[j].now
  }
}
