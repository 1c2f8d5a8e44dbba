/** What the rolling-window drift detector should report (src/core/protocol-drift.ts), said without
    counters: the events and anomalies still in the window, recounted from scratch, and the alert
    rule.  `ProtocolDrift` shows that the incremental detector agrees with it. */
module DriftWindow {
  import opened Collections

  datatype Timed<T> = Timed(at: int, item: T)

  datatype EventInfo = EventInfo(streamerId: string, unknown: bool, code: int)

  datatype AnomalyInfo = AnomalyInfo(streamerId: string, malformed: bool)

  datatype Config = Config(windowMs: int, minUnknown: nat, minMalformed: nat, minStreams: nat,
                           unknownRatio: real, alertCooldownMs: int, maxEvents: nat, maxAnomalies: nat)

  datatype Reason = UnknownRate | MalformedRate

  datatype Incident = Incident(detectedAt: int, reason: Reason, severe: bool, totalEvents: int, unknownEvents: int,
                               malformedPackets: int, affectedStreams: nat, unknownRatio: real)

  // ---------- brute-force counts ----------

  function UnknownCount(es: seq<Timed<EventInfo>>): nat {
    if es == [] then 0 else (if es[0].item.unknown then 1 else 0) + UnknownCount(es[1..])
  }

  function UnknownCodes(es: seq<Timed<EventInfo>>): multiset<int> {
    if es == [] then multiset{}
    else (if es[0].item.unknown then multiset{es[0].item.code} else multiset{}) + UnknownCodes(es[1..])
  }

  function UnknownStreams(es: seq<Timed<EventInfo>>): multiset<string> {
    if es == [] then multiset{}
    else (if es[0].item.unknown then multiset{es[0].item.streamerId} else multiset{}) + UnknownStreams(es[1..])
  }

  function MalformedCount(xs: seq<Timed<AnomalyInfo>>): nat {
    if xs == [] then 0 else (if xs[0].item.malformed then 1 else 0) + MalformedCount(xs[1..])
  }

  function MalformedStreams(xs: seq<Timed<AnomalyInfo>>): multiset<string> {
    if xs == [] then multiset{}
    else (if xs[0].item.malformed then multiset{xs[0].item.streamerId} else multiset{}) + MalformedStreams(xs[1..])
  }

  /** How often each element occurs; nothing is listed with a count of zero. */
  function Tally<K(==)>(ms: multiset<K>): map<K, nat> {
    map k | k in ms :: ms[k]
  }

  function Affected(es: seq<Timed<EventInfo>>, xs: seq<Timed<AnomalyInfo>>): multiset<string> {
    UnknownStreams(es) + MalformedStreams(xs)
  }

  lemma {:induction false} AppendUnknown(es: seq<Timed<EventInfo>>, e: Timed<EventInfo>)
    ensures UnknownCount(es + [e]) == UnknownCount(es) + if e.item.unknown then 1 else 0
    decreases |es|
  {
    if es == [] {
      assert es + [e] == [e];
    } else {
      AppendUnknown(es[1..], e);
      assert (es + [e])[1..] == es[1..] + [e];
    }
  }

  lemma {:induction false} AppendCode(es: seq<Timed<EventInfo>>, e: Timed<EventInfo>)
    ensures UnknownCodes(es + [e]) == UnknownCodes(es) + if e.item.unknown then multiset{e.item.code} else multiset{}
    decreases |es|
  {
    if es == [] {
      assert es + [e] == [e];
    } else {
      AppendCode(es[1..], e);
      assert (es + [e])[1..] == es[1..] + [e];
    }
  }

  lemma {:induction false} AppendStream(es: seq<Timed<EventInfo>>, e: Timed<EventInfo>)
    ensures UnknownStreams(es + [e]) ==
            UnknownStreams(es) + if e.item.unknown then multiset{e.item.streamerId} else multiset{}
    decreases |es|
  {
    if es == [] {
      assert es + [e] == [e];
    } else {
      AppendStream(es[1..], e);
      assert (es + [e])[1..] == es[1..] + [e];
    }
  }

  lemma {:induction false} AppendAnomaly(xs: seq<Timed<AnomalyInfo>>, x: Timed<AnomalyInfo>)
    ensures MalformedCount(xs + [x]) == MalformedCount(xs) + if x.item.malformed then 1 else 0
    ensures MalformedStreams(xs + [x]) ==
            MalformedStreams(xs) + if x.item.malformed then multiset{x.item.streamerId} else multiset{}
    decreases |xs|
  {
    if xs == [] {
      assert xs + [x] == [x];
    } else {
      AppendAnomaly(xs[1..], x);
      assert (xs + [x])[1..] == xs[1..] + [x];
    }
  }

  lemma {:induction false} UnknownStreamIff(es: seq<Timed<EventInfo>>, s: string)
    ensures s in UnknownStreams(es) <==> exists i :: 0 <= i < |es| && es[i].item.unknown && es[i].item.streamerId == s
    decreases |es|
  {
    if es != [] {
      UnknownStreamIff(es[1..], s);
      if i :| 0 <= i < |es[1..]| && es[1..][i].item.unknown && es[1..][i].item.streamerId == s {
        assert es[i + 1].item.unknown;
      }
      if i :| 0 <= i < |es| && es[i].item.unknown && es[i].item.streamerId == s {
        assert i > 0 ==> es[1..][i - 1] == es[i];
      }
    }
  }

  lemma {:induction false} MalformedStreamIff(xs: seq<Timed<AnomalyInfo>>, s: string)
    ensures s in MalformedStreams(xs) <==>
            exists i :: 0 <= i < |xs| && xs[i].item.malformed && xs[i].item.streamerId == s
    decreases |xs|
  {
    if xs != [] {
      MalformedStreamIff(xs[1..], s);
      if i :| 0 <= i < |xs[1..]| && xs[1..][i].item.malformed && xs[1..][i].item.streamerId == s {
        assert xs[i + 1].item.malformed;
      }
      if i :| 0 <= i < |xs| && xs[i].item.malformed && xs[i].item.streamerId == s {
        assert i > 0 ==> xs[1..][i - 1] == xs[i];
      }
    }
  }

  /** The keys of the affected-streams tally are exactly the streams with an unknown event or a
      malformed packet among those counted, so its size is the number of affected streams. */
  lemma AffectedIff(es: seq<Timed<EventInfo>>, xs: seq<Timed<AnomalyInfo>>, s: string)
    ensures s in Tally(Affected(es, xs)) <==>
            || (exists i :: 0 <= i < |es| && es[i].item.unknown && es[i].item.streamerId == s)
            || (exists i :: 0 <= i < |xs| && xs[i].item.malformed && xs[i].item.streamerId == s)
    ensures s in Tally(Affected(es, xs)) ==> Tally(Affected(es, xs))[s] > 0
  {
    UnknownStreamIff(es, s);
    MalformedStreamIff(xs, s);
  }

  // ---------- the window ----------

  /** Expiry only looks at the head: it drops items until one is young enough. */
  function DropOld<T>(xs: seq<Timed<T>>, cutoff: int): seq<Timed<T>> {
    if xs == [] || xs[0].at >= cutoff then xs else DropOld(xs[1..], cutoff)
  }

  /** The items of the whole history that are in the window. */
  function InWindow<T>(xs: seq<Timed<T>>, cutoff: int): seq<Timed<T>> {
    if xs == [] then [] else (if xs[0].at >= cutoff then [xs[0]] else []) + InWindow(xs[1..], cutoff)
  }

  predicate Sorted<T>(xs: seq<Timed<T>>) {
    forall i, j :: 0 <= i < j < |xs| ==> xs[i].at <= xs[j].at
  }

  /** First position whose item is young enough. */
  function FirstYoung<T>(xs: seq<Timed<T>>, cutoff: int): (k: nat)
    ensures k <= |xs|
    ensures k < |xs| ==> xs[k].at >= cutoff
    ensures forall i :: 0 <= i < k ==> xs[i].at < cutoff
  {
    if xs == [] || xs[0].at >= cutoff then 0 else 1 + FirstYoung(xs[1..], cutoff)
  }

  lemma {:induction false} AllYoung<T>(xs: seq<Timed<T>>, cutoff: int)
    requires forall i :: 0 <= i < |xs| ==> xs[i].at >= cutoff
    ensures InWindow(xs, cutoff) == xs
    decreases |xs|
  {
    if xs != [] {
      AllYoung(xs[1..], cutoff);
      assert xs == [xs[0]] + xs[1..];
    }
  }

  lemma {:induction false} InWindowIsSuffix<T>(xs: seq<Timed<T>>, cutoff: int)
    requires Sorted(xs)
    ensures InWindow(xs, cutoff) == xs[FirstYoung(xs, cutoff)..]
    decreases |xs|
  {
    if xs != [] {
      if xs[0].at >= cutoff {
        AllYoung(xs, cutoff);
      } else {
        InWindowIsSuffix(xs[1..], cutoff);
        assert InWindow(xs, cutoff) == InWindow(xs[1..], cutoff);
        assert xs[1..][FirstYoung(xs[1..], cutoff)..] == xs[FirstYoung(xs, cutoff)..];
      }
    }
  }

  lemma {:induction false} DropOldFromSuffix<T>(xs: seq<Timed<T>>, m: nat, cutoff: int)
    requires Sorted(xs) && m <= |xs|
    ensures var k := FirstYoung(xs, cutoff);
            DropOld(xs[m..], cutoff) == xs[if m <= k then k else m..]
    decreases |xs| - m
  {
    if m < |xs| && xs[m].at < cutoff {
      DropOldFromSuffix(xs, m + 1, cutoff);
      assert xs[m..][1..] == xs[m + 1..];
    }
  }

  lemma {:induction false} FirstYoungGrows<T>(xs: seq<Timed<T>>, more: seq<Timed<T>>, cutoff: int, later: int)
    requires Sorted(xs + more) && cutoff <= later
    ensures FirstYoung(xs, cutoff) <= FirstYoung(xs + more, later)
  {
    assert forall i :: 0 <= i < |xs| ==> (xs + more)[i] == xs[i];
  }

  /** Nothing before this time is in the window. */
  function Cutoff(cfg: Config, now: int): int {
    now - cfg.windowMs
  }

  /** What the window keeps of a history. */
  function Window<T>(xs: seq<Timed<T>>, cutoff: int, capacity: nat): seq<Timed<T>> {
    LastOf(InWindow(xs, cutoff), capacity)
  }

  lemma {:induction false} SortedPrefix<T>(xs: seq<Timed<T>>, more: seq<Timed<T>>)
    requires Sorted(xs + more)
    ensures Sorted(xs)
  {
    forall i, j | 0 <= i < j < |xs| ensures xs[i].at <= xs[j].at {
      assert (xs + more)[i].at <= (xs + more)[j].at;
    }
  }

  /** A window of a sorted history is the suffix that starts at the first young item, or later if
      that is more than the capacity. */
  function WindowStart<T>(xs: seq<Timed<T>>, cutoff: int, capacity: nat): (m: nat)
    ensures m <= |xs|
  {
    var k := FirstYoung(xs, cutoff);
    if |xs| - k <= capacity then k else |xs| - capacity
  }

  lemma {:induction false} WindowIsSuffix<T>(xs: seq<Timed<T>>, cutoff: int, capacity: nat)
    requires Sorted(xs)
    ensures Window(xs, cutoff, capacity) == xs[WindowStart(xs, cutoff, capacity)..]
  {
    InWindowIsSuffix(xs, cutoff);
  }

  lemma {:induction false} CapSuffix<T>(xs: seq<Timed<T>>, m: nat, k: nat, capacity: nat)
    requires m <= |xs| && k <= |xs| && m <= (if |xs| - k <= capacity then k else |xs| - capacity)
    ensures LastOf(xs[if m <= k then k else m..], capacity) == xs[if |xs| - k <= capacity then k else |xs| - capacity..]
  {
  }

  /** Expiring and capping after each arrival keeps the window exact on sorted histories, however
      often the cap has cut it before. */
  lemma {:induction false} WindowStep<T>(xs: seq<Timed<T>>, more: seq<Timed<T>>, cutoff: int, later: int, capacity: nat)
    requires Sorted(xs + more) && cutoff <= later
    ensures LastOf(DropOld(Window(xs, cutoff, capacity) + more, later), capacity) == Window(xs + more, later, capacity)
  {
    SortedPrefix(xs, more);
    WindowIsSuffix(xs, cutoff, capacity);
    WindowIsSuffix(xs + more, later, capacity);
    FirstYoungGrows(xs, more, cutoff, later);
    var all, m := xs + more, WindowStart(xs, cutoff, capacity);
    assert Window(xs, cutoff, capacity) + more == all[m..];
    DropOldFromSuffix(all, m, later);
    CapSuffix(all, m, FirstYoung(all, later), capacity);
  }

  // ---------- the detector's abstract state ----------

  datatype Observation = SawEvent(event: Timed<EventInfo>) | SawAnomaly(anomaly: Timed<AnomalyInfo>)

  datatype State = State(events: seq<Timed<EventInfo>>, anomalies: seq<Timed<AnomalyInfo>>, lastAlertAt: int,
                         incidents: seq<Incident>)

  const START := State([], [], 0, [])

  function At(o: Observation): int {
    if o.SawEvent? then o.event.at else o.anomaly.at
  }

  function EventsIn(o: Observation): seq<Timed<EventInfo>> {
    if o.SawEvent? then [o.event] else []
  }

  function AnomaliesIn(o: Observation): seq<Timed<AnomalyInfo>> {
    if o.SawAnomaly? then [o.anomaly] else []
  }

  /** The alert rule on given counts. */
  function Alert(cfg: Config, now: int, lastAlertAt: int, total: nat, unknown: nat, malformed: nat,
                 streams: nat): Option<Incident> {
    var ratio := if total > 0 then unknown as real / total as real else 0.0;
    if now - lastAlertAt < cfg.alertCooldownMs then None
    else if unknown >= cfg.minUnknown && streams >= cfg.minStreams && ratio >= cfg.unknownRatio then
      Some(Incident(now, UnknownRate, ratio >= Max(0.2, cfg.unknownRatio * 2.0), total, unknown, malformed, streams,
          ratio))
    else if malformed >= cfg.minMalformed && streams >= cfg.minStreams then
      Some(Incident(now, MalformedRate, malformed >= cfg.minMalformed * 2, total, unknown, malformed, streams, ratio))
    else None
  }

  /** The alert rule on recounted windows. */
  function AlertFor(cfg: Config, now: int, lastAlertAt: int, es: seq<Timed<EventInfo>>,
                    xs: seq<Timed<AnomalyInfo>>): Option<Incident> {
    Alert(cfg, now, lastAlertAt, |es|, UnknownCount(es), MalformedCount(xs), |Tally(Affected(es, xs))|)
  }

  function Raise(s: State, incident: Option<Incident>): State {
    if incident.None? then s
    else s.(incidents := LastOf(s.incidents + [incident.value], 100), lastAlertAt := incident.value.detectedAt)
  }

  function Shrink(cfg: Config, s: State, now: int): State {
    s.(events := LastOf(DropOld(s.events, Cutoff(cfg, now)), cfg.maxEvents),
       anomalies := LastOf(DropOld(s.anomalies, Cutoff(cfg, now)), cfg.maxAnomalies))
  }

  function Observe(cfg: Config, s: State, o: Observation): (State, Option<Incident>) {
    var t := Shrink(cfg, s.(events := s.events + EventsIn(o), anomalies := s.anomalies + AnomaliesIn(o)), At(o));
    var incident := AlertFor(cfg, At(o), t.lastAlertAt, t.events, t.anomalies);
    (Raise(t, incident), incident)
  }

  // ---------- runs ----------

  function Run(cfg: Config, history: seq<Observation>): State
    decreases |history|
  {
    if history == [] then START else Observe(cfg, Run(cfg, history[..|history| - 1]), history[|history| - 1]).0
  }

  function ListOf(incident: Option<Incident>): seq<Incident> {
    if incident.Some? then [incident.value] else []
  }

  /** Every incident the run reported, oldest first. */
  function Reported(cfg: Config, history: seq<Observation>): seq<Incident>
    decreases |history|
  {
    if history == [] then [] else
    var before := history[..|history| - 1];
    Reported(cfg, before) + ListOf(Observe(cfg, Run(cfg, before), history[|history| - 1]).1)
  }

  function AllEvents(history: seq<Observation>): seq<Timed<EventInfo>>
    decreases |history|
  {
    if history == [] then [] else AllEvents(history[..|history| - 1]) + EventsIn(history[|history| - 1])
  }

  function AllAnomalies(history: seq<Observation>): seq<Timed<AnomalyInfo>>
    decreases |history|
  {
    if history == [] then [] else AllAnomalies(history[..|history| - 1]) + AnomaliesIn(history[|history| - 1])
  }

  predicate NonDecreasing(history: seq<Observation>) {
    forall i, j :: 0 <= i < j < |history| ==> At(history[i]) <= At(history[j])
  }

  lemma {:induction false} RunNext(cfg: Config, history: seq<Observation>, o: Observation)
    ensures Run(cfg, history + [o]) == Observe(cfg, Run(cfg, history), o).0
  {
    assert (history + [o])[..|history|] == history;
  }

  lemma {:induction false} AllNext(history: seq<Observation>, o: Observation)
    ensures AllEvents(history + [o]) == AllEvents(history) + EventsIn(o)
    ensures AllAnomalies(history + [o]) == AllAnomalies(history) + AnomaliesIn(o)
  {
    assert (history + [o])[..|history|] == history;
  }

  /** In order, and none later than the bound. */
  predicate UpTo<T>(xs: seq<Timed<T>>, bound: int) {
    Sorted(xs) && forall i :: 0 <= i < |xs| ==> xs[i].at <= bound
  }

  lemma UpToLater<T>(xs: seq<Timed<T>>, bound: int, later: int)
    requires UpTo(xs, bound) && bound <= later
    ensures UpTo(xs, later)
  {
  }

  lemma UpToAppend<T>(xs: seq<Timed<T>>, x: Timed<T>)
    requires UpTo(xs, x.at)
    ensures UpTo(xs + [x], x.at)
  {
  }

  lemma SortedOn(es: seq<Timed<EventInfo>>, xs: seq<Timed<AnomalyInfo>>, o: Observation, bound: int)
    requires UpTo(es, bound) && UpTo(xs, bound) && bound <= At(o)
    ensures UpTo(es + EventsIn(o), At(o)) && UpTo(xs + AnomaliesIn(o), At(o))
  {
    UpToLater(es, bound, At(o));
    UpToLater(xs, bound, At(o));
    if o.SawEvent? {
      UpToAppend(es, o.event);
      assert xs + [] == xs;
    } else {
      UpToAppend(xs, o.anomaly);
      assert es + [] == es;
    }
  }

  lemma {:induction false} HistorySorted(history: seq<Observation>, bound: int)
    requires NonDecreasing(history) && (history != [] ==> At(history[|history| - 1]) <= bound)
    ensures UpTo(AllEvents(history), bound) && UpTo(AllAnomalies(history), bound)
    decreases |history|
  {
    if history != [] {
      var before, o := history[..|history| - 1], history[|history| - 1];
      HistorySorted(before, At(o));
      SortedOn(AllEvents(before), AllAnomalies(before), o, At(o));
      UpToLater(AllEvents(history), At(o), bound);
      UpToLater(AllAnomalies(history), At(o), bound);
    }
  }

  lemma ObserveWindows(cfg: Config, s: State, o: Observation)
    ensures var t, cutoff := Observe(cfg, s, o).0, Cutoff(cfg, At(o));
            && t.events == LastOf(DropOld(s.events + EventsIn(o), cutoff), cfg.maxEvents)
            && t.anomalies == LastOf(DropOld(s.anomalies + AnomaliesIn(o), cutoff), cfg.maxAnomalies)
  {
  }

  /** The live windows of a state. */
  function Live(s: State): (seq<Timed<EventInfo>>, seq<Timed<AnomalyInfo>>) {
    (s.events, s.anomalies)
  }

  /** The windows of these events and anomalies. */
  function Windows(cfg: Config, es: seq<Timed<EventInfo>>, xs: seq<Timed<AnomalyInfo>>, cutoff: int)
    : (seq<Timed<EventInfo>>, seq<Timed<AnomalyInfo>>)
  {
    (Window(es, cutoff, cfg.maxEvents), Window(xs, cutoff, cfg.maxAnomalies))
  }

  lemma LiveOn(cfg: Config, s: State, t: State, es: seq<Timed<EventInfo>>, xs: seq<Timed<AnomalyInfo>>,
               o: Observation, cutoff: int)
    requires Live(s) == Windows(cfg, es, xs, cutoff) && cutoff <= Cutoff(cfg, At(o))
    requires Sorted(es + EventsIn(o)) && Sorted(xs + AnomaliesIn(o))
    requires t.events == LastOf(DropOld(s.events + EventsIn(o), Cutoff(cfg, At(o))), cfg.maxEvents)
    requires t.anomalies == LastOf(DropOld(s.anomalies + AnomaliesIn(o), Cutoff(cfg, At(o))), cfg.maxAnomalies)
    ensures Live(t) == Windows(cfg, es + EventsIn(o), xs + AnomaliesIn(o), Cutoff(cfg, At(o)))
  {
    WindowStep(es, EventsIn(o), cutoff, Cutoff(cfg, At(o)), cfg.maxEvents);
    WindowStep(xs, AnomaliesIn(o), cutoff, Cutoff(cfg, At(o)), cfg.maxAnomalies);
  }

  lemma LiveObserved(cfg: Config, s: State, es: seq<Timed<EventInfo>>, xs: seq<Timed<AnomalyInfo>>, o: Observation,
                     cutoff: int)
    requires Live(s) == Windows(cfg, es, xs, cutoff) && cutoff <= Cutoff(cfg, At(o))
    requires Sorted(es + EventsIn(o)) && Sorted(xs + AnomaliesIn(o))
    ensures Live(Observe(cfg, s, o).0) == Windows(cfg, es + EventsIn(o), xs + AnomaliesIn(o), Cutoff(cfg, At(o)))
  {
    ObserveWindows(cfg, s, o);
    LiveOn(cfg, s, Observe(cfg, s, o).0, es, xs, o, cutoff);
  }

  /** What the whole history has in the window of its last observation. */
  function EventsInWindow(cfg: Config, history: seq<Observation>): seq<Timed<EventInfo>>
    requires history != []
  {
    InWindow(AllEvents(history), Cutoff(cfg, At(history[|history| - 1])))
  }

  function AnomaliesInWindow(cfg: Config, history: seq<Observation>): seq<Timed<AnomalyInfo>>
    requires history != []
  {
    InWindow(AllAnomalies(history), Cutoff(cfg, At(history[|history| - 1])))
  }

  /** The newest of that, up to the caps. */
  function HistoryWindows(cfg: Config, history: seq<Observation>): (seq<Timed<EventInfo>>, seq<Timed<AnomalyInfo>>)
    requires history != []
  {
    (LastOf(EventsInWindow(cfg, history), cfg.maxEvents), LastOf(AnomaliesInWindow(cfg, history), cfg.maxAnomalies))
  }

  lemma {:induction false} SortedNext(before: seq<Observation>, o: Observation)
    requires NonDecreasing(before + [o])
    ensures Sorted(AllEvents(before) + EventsIn(o)) && Sorted(AllAnomalies(before) + AnomaliesIn(o))
  {
    HistorySorted(before + [o], At(o));
    AllNext(before, o);
  }

  lemma {:induction false} HistoryWindowsNext(cfg: Config, before: seq<Observation>, o: Observation)
    ensures HistoryWindows(cfg, before + [o]) ==
            Windows(cfg, AllEvents(before) + EventsIn(o), AllAnomalies(before) + AnomaliesIn(o), Cutoff(cfg, At(o)))
  {
    AllNext(before, o);
  }

  lemma {:induction false} LiveNext(cfg: Config, before: seq<Observation>, o: Observation, cutoff: int)
    requires NonDecreasing(before + [o]) && cutoff <= Cutoff(cfg, At(o))
    requires Live(Run(cfg, before)) == Windows(cfg, AllEvents(before), AllAnomalies(before), cutoff)
    ensures Live(Run(cfg, before + [o])) == HistoryWindows(cfg, before + [o])
  {
    SortedNext(before, o);
    LiveObserved(cfg, Run(cfg, before), AllEvents(before), AllAnomalies(before), o, cutoff);
    RunNext(cfg, before, o);
    HistoryWindowsNext(cfg, before, o);
  }

  lemma {:induction false} LiveAtStart(cfg: Config, o: Observation)
    ensures Live(Run(cfg, [] + [o])) == HistoryWindows(cfg, [] + [o])
  {
    LiveNext(cfg, [], o, Cutoff(cfg, At(o)));
  }

  lemma {:induction false} LiveIsExact(cfg: Config, history: seq<Observation>)
    requires NonDecreasing(history) && history != []
    ensures Live(Run(cfg, history)) == HistoryWindows(cfg, history)
    decreases |history|
  {
    var before, o := history[..|history| - 1], history[|history| - 1];
    assert history == before + [o];
    if before == [] {
      LiveAtStart(cfg, o);
    } else {
      LiveIsExact(cfg, before);
      LiveNext(cfg, before, o, Cutoff(cfg, At(before[|before| - 1])));
    }
  }

  /** Main result.  For non-decreasing timestamps the live windows are exactly the most recent
      maxEvents and maxAnomalies of the items in the window, out of the whole history. */
  lemma {:induction false} WindowIsExact(cfg: Config, history: seq<Observation>)
    requires NonDecreasing(history) && history != []
    ensures Run(cfg, history).events == LastOf(EventsInWindow(cfg, history), cfg.maxEvents)
    ensures Run(cfg, history).anomalies == LastOf(AnomaliesInWindow(cfg, history), cfg.maxAnomalies)
  {
    LiveIsExact(cfg, history);
  }

  lemma UncutIff<T>(xs: seq<T>, capacity: nat)
    ensures LastOf(xs, capacity) == xs <==> |xs| <= capacity
  {
  }

  /** So they are all of those items exactly while the caps have room for them. */
  lemma {:induction false} WindowUncutIff(cfg: Config, history: seq<Observation>)
    requires NonDecreasing(history) && history != []
    ensures Run(cfg, history).events == EventsInWindow(cfg, history) <==>
            |EventsInWindow(cfg, history)| <= cfg.maxEvents
    ensures Run(cfg, history).anomalies == AnomaliesInWindow(cfg, history) <==>
            |AnomaliesInWindow(cfg, history)| <= cfg.maxAnomalies
  {
    WindowIsExact(cfg, history);
    UncutIff(EventsInWindow(cfg, history), cfg.maxEvents);
    UncutIff(AnomaliesInWindow(cfg, history), cfg.maxAnomalies);
  }

  /** The report list, the alert clock and the incident log tell the same story. */
  ghost predicate Spaced(cfg: Config, s: State, r: seq<Incident>) {
    && (forall i :: 0 < i < |r| ==> r[i].detectedAt - r[i - 1].detectedAt >= cfg.alertCooldownMs)
    && (r != [] ==> s.lastAlertAt == r[|r| - 1].detectedAt)
    && s.incidents == LastOf(r, 100)
  }

  lemma SpacedStep(cfg: Config, s: State, r: seq<Incident>, x: Incident, t: State)
    requires Spaced(cfg, s, r) && x.detectedAt - s.lastAlertAt >= cfg.alertCooldownMs
    requires t.lastAlertAt == x.detectedAt && t.incidents == LastOf(s.incidents + [x], 100)
    ensures Spaced(cfg, t, r + [x])
  {
    if |r| >= 100 {
      assert LastOf(r, 100) + [x] == (r + [x])[|r| - 100..];
      assert (r + [x])[|r| - 100..][1..] == (r + [x])[|r| - 99..];
    }
    assert LastOf(LastOf(r, 100) + [x], 100) == LastOf(r + [x], 100);
    forall i | 0 < i < |r + [x]| ensures (r + [x])[i].detectedAt - (r + [x])[i - 1].detectedAt >= cfg.alertCooldownMs {
      assert (r + [x])[i - 1] == r[i - 1];
    }
  }

  lemma ObserveAlerts(cfg: Config, s: State, o: Observation)
    ensures var (t, incident) := Observe(cfg, s, o);
            if incident.None? then t.lastAlertAt == s.lastAlertAt && t.incidents == s.incidents
            else && incident.value.detectedAt - s.lastAlertAt >= cfg.alertCooldownMs
                 && t.lastAlertAt == incident.value.detectedAt
                 && t.incidents == LastOf(s.incidents + [incident.value], 100)
  {
  }

  lemma SpacedOn(cfg: Config, s: State, r: seq<Incident>, o: Observation)
    requires Spaced(cfg, s, r)
    ensures Spaced(cfg, Observe(cfg, s, o).0, r + ListOf(Observe(cfg, s, o).1))
  {
    ObserveAlerts(cfg, s, o);
    var (t, incident) := Observe(cfg, s, o);
    if incident.Some? {
      SpacedStep(cfg, s, r, incident.value, t);
    } else {
      assert r + [] == r;
    }
  }

  /** Whatever the timestamps, two consecutive incidents are at least the cooldown apart, and the log
      keeps the last hundred. */
  lemma {:induction false} AlertsAreSpaced(cfg: Config, history: seq<Observation>)
    ensures Spaced(cfg, Run(cfg, history), Reported(cfg, history))
    decreases |history|
  {
    if history != [] {
      var before, o := history[..|history| - 1], history[|history| - 1];
      AlertsAreSpaced(cfg, before);
      SpacedOn(cfg, Run(cfg, before), Reported(cfg, before), o);
    }
  }
}
