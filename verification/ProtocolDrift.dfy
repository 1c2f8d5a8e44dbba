/** The incremental drift detector (src/core/protocol-drift.ts): lists with moving heads, running
    counters and tallies, lazy compaction and caps, proved against the recount in `DriftWindow`. */
module ProtocolDrift {
  import opened Collections
  import opened DriftWindow

  function Bump<K(==)>(m: map<K, nat>, k: K, delta: int): map<K, nat> {
    var n := (if k in m then m[k] else 0) + delta;
    if n <= 0 then m - {k} else m[k := n]
  }

  lemma BumpUp<K>(ms: multiset<K>, k: K)
    ensures Bump(Tally(ms), k, 1) == Tally(ms + multiset{k})
  {
  }

  lemma BumpDown<K>(ms: multiset<K>, k: K)
    ensures Bump(Tally(ms + multiset{k}), k, -1) == Tally(ms)
  {
    assert (ms + multiset{k})[k] == ms[k] + 1;
  }

  /** The running counters of the detector. */
  datatype Counters = Counters(totalEvents: int, unknownEvents: int, malformedPackets: int,
                               unknownCodes: map<int, nat>, affectedStreams: map<string, nat>)

  /** The same, recounted from scratch. */
  function Recount(es: seq<Timed<EventInfo>>, xs: seq<Timed<AnomalyInfo>>): Counters {
    Counters(|es|, UnknownCount(es), MalformedCount(xs), Tally(UnknownCodes(es)), Tally(Affected(es, xs)))
  }

  /** Counting one event in (delta = 1) or out (delta = -1). */
  function AdjustEvent(c: Counters, e: EventInfo, delta: int): Counters {
    if e.unknown then
      c.(totalEvents := c.totalEvents + delta, unknownEvents := c.unknownEvents + delta,
         unknownCodes := Bump(c.unknownCodes, e.code, delta),
         affectedStreams := Bump(c.affectedStreams, e.streamerId, delta))
    else c.(totalEvents := c.totalEvents + delta)
  }

  function AdjustAnomaly(c: Counters, x: AnomalyInfo, delta: int): Counters {
    if x.malformed then
      c.(malformedPackets := c.malformedPackets + delta,
         affectedStreams := Bump(c.affectedStreams, x.streamerId, delta))
    else c
  }

  lemma CodesWithoutFirst(es: seq<Timed<EventInfo>>)
    requires es != []
    ensures Tally(UnknownCodes(es[1..])) ==
            if es[0].item.unknown then Bump(Tally(UnknownCodes(es)), es[0].item.code, -1) else Tally(UnknownCodes(es))
  {
    var rest, k := UnknownCodes(es[1..]), es[0].item.code;
    if es[0].item.unknown {
      assert UnknownCodes(es) == rest + multiset{k};
      BumpDown(rest, k);
    } else {
      assert UnknownCodes(es) == rest;
    }
  }

  lemma StreamsWithoutFirst(es: seq<Timed<EventInfo>>, xs: seq<Timed<AnomalyInfo>>)
    requires es != []
    ensures Tally(Affected(es[1..], xs)) ==
            if es[0].item.unknown then Bump(Tally(Affected(es, xs)), es[0].item.streamerId, -1)
                else Tally(Affected(es, xs))
  {
    var rest, k := Affected(es[1..], xs), es[0].item.streamerId;
    if es[0].item.unknown {
      assert Affected(es, xs) == rest + multiset{k};
      BumpDown(rest, k);
    } else {
      assert Affected(es, xs) == rest;
    }
  }

  lemma RecountWithoutFirstEvent(es: seq<Timed<EventInfo>>, xs: seq<Timed<AnomalyInfo>>)
    requires es != []
    ensures Recount(es[1..], xs) == AdjustEvent(Recount(es, xs), es[0].item, -1)
  {
    CodesWithoutFirst(es);
    StreamsWithoutFirst(es, xs);
  }

  lemma StreamsWithoutFirstAnomaly(es: seq<Timed<EventInfo>>, xs: seq<Timed<AnomalyInfo>>)
    requires xs != []
    ensures Tally(Affected(es, xs[1..])) ==
            if xs[0].item.malformed then Bump(Tally(Affected(es, xs)), xs[0].item.streamerId, -1)
                else Tally(Affected(es, xs))
  {
    var rest, k := Affected(es, xs[1..]), xs[0].item.streamerId;
    if xs[0].item.malformed {
      assert Affected(es, xs) == rest + multiset{k};
      BumpDown(rest, k);
    } else {
      assert Affected(es, xs) == rest;
    }
  }

  lemma RecountWithoutFirstAnomaly(es: seq<Timed<EventInfo>>, xs: seq<Timed<AnomalyInfo>>)
    requires xs != []
    ensures Recount(es, xs[1..]) == AdjustAnomaly(Recount(es, xs), xs[0].item, -1)
  {
    StreamsWithoutFirstAnomaly(es, xs);
  }

  lemma CodesWithLast(es: seq<Timed<EventInfo>>, e: Timed<EventInfo>)
    ensures Tally(UnknownCodes(es + [e])) ==
            if e.item.unknown then Bump(Tally(UnknownCodes(es)), e.item.code, 1) else Tally(UnknownCodes(es))
  {
    AppendCode(es, e);
    BumpUp(UnknownCodes(es), e.item.code);
  }

  lemma StreamsWithLast(es: seq<Timed<EventInfo>>, xs: seq<Timed<AnomalyInfo>>, e: Timed<EventInfo>)
    ensures Tally(Affected(es + [e], xs)) ==
            if e.item.unknown then Bump(Tally(Affected(es, xs)), e.item.streamerId, 1) else Tally(Affected(es, xs))
  {
    AppendStream(es, e);
    if e.item.unknown {
      BumpUp(Affected(es, xs), e.item.streamerId);
      assert Affected(es + [e], xs) == Affected(es, xs) + multiset{e.item.streamerId};
    } else {
      assert Affected(es + [e], xs) == Affected(es, xs);
    }
  }

  lemma RecountWithEvent(es: seq<Timed<EventInfo>>, xs: seq<Timed<AnomalyInfo>>, e: Timed<EventInfo>)
    ensures Recount(es + [e], xs) == AdjustEvent(Recount(es, xs), e.item, 1)
  {
    AppendUnknown(es, e);
    CodesWithLast(es, e);
    StreamsWithLast(es, xs, e);
  }

  lemma RecountWithAnomaly(es: seq<Timed<EventInfo>>, xs: seq<Timed<AnomalyInfo>>, x: Timed<AnomalyInfo>)
    ensures Recount(es, xs + [x]) == AdjustAnomaly(Recount(es, xs), x.item, 1)
  {
    AppendAnomaly(xs, x);
    if x.item.malformed {
      BumpUp(Affected(es, xs), x.item.streamerId);
      assert Affected(es, xs + [x]) == Affected(es, xs) + multiset{x.item.streamerId};
    } else {
      assert Affected(es, xs + [x]) == Affected(es, xs);
    }
  }

  lemma {:induction false} DropOldShrinks<T>(xs: seq<Timed<T>>, cutoff: int)
    ensures |DropOld(xs, cutoff)| <= |xs|
  {
    if xs != [] && xs[0].at < cutoff {
      DropOldShrinks(xs[1..], cutoff);
    }
  }

  function Larger(a: nat, b: nat): nat {
    if a >= b then a else b
  }

  /** Compaction that only runs over a fixed slack and past the middle still bounds the backing list. */
  lemma BackingBound(length: nat, head: nat, cap: nat, slack: nat)
    requires head <= length && length - head <= cap + 1
    requires head <= slack || 2 * head <= length
    ensures length <= cap + 1 + Larger(slack, cap + 1)
  {
  }

  class ProtocolDriftDetector {
    const cfg: Config
    var events: seq<Timed<EventInfo>>
    var eventHead: nat
    var anomalies: seq<Timed<AnomalyInfo>>
    var anomalyHead: nat
    var incidents: seq<Incident>
    var lastAlertAt: int
    var totalEvents: int
    var unknownEvents: int
    var malformedPackets: int
    var unknownCodes: map<int, nat>
    var affectedStreams: map<string, nat>

    ghost predicate HeadsInRange()
      reads this
    {
      eventHead <= |events| && anomalyHead <= |anomalies|
    }

    ghost function LiveEvents(): seq<Timed<EventInfo>>
      reads `events, `eventHead
    {
      if eventHead <= |events| then events[eventHead..] else []
    }

    ghost function LiveAnomalies(): seq<Timed<AnomalyInfo>>
      reads `anomalies, `anomalyHead
    {
      if anomalyHead <= |anomalies| then anomalies[anomalyHead..] else []
    }

    ghost function Current(): Counters
      reads this
    {
      Counters(totalEvents, unknownEvents, malformedPackets, unknownCodes, affectedStreams)
    }

    /** The counters agree with a recount of the live windows. */
    ghost predicate Counted()
      reads this
    {
      HeadsInRange() && Current() == Recount(LiveEvents(), LiveAnomalies()) && |incidents| <= 100
    }

    /** The windows fit their caps, and compaction has kept the backing lists within twice that or a
        fixed slack. */
    ghost predicate Bounded()
      reads this
    {
      && HeadsInRange()
      && |LiveEvents()| <= cfg.maxEvents && |LiveAnomalies()| <= cfg.maxAnomalies
      && |events| <= cfg.maxEvents + 1 + Larger(4096, cfg.maxEvents + 1)
      && |anomalies| <= cfg.maxAnomalies + 1 + Larger(2048, cfg.maxAnomalies + 1)
    }

    ghost predicate Valid()
      reads this
    {
      Counted() && Bounded()
    }

    ghost function View(): State
      reads this
    {
      State(LiveEvents(), LiveAnomalies(), lastAlertAt, incidents)
    }

    constructor (cfg: Config)
      ensures Valid() && View() == START && this.cfg == cfg
    {
      this.cfg := cfg;
      events, eventHead, anomalies, anomalyHead := [], 0, [], 0;
      incidents, lastAlertAt := [], 0;
      totalEvents, unknownEvents, malformedPackets := 0, 0, 0;
      unknownCodes, affectedStreams := map[], map[];
    }

    /** Counts one event in (delta = 1) or out (delta = -1). */
    method CountEvent(e: EventInfo, delta: int)
      modifies `totalEvents, `unknownEvents, `unknownCodes, `affectedStreams
      ensures Current() == AdjustEvent(old(Current()), e, delta)
    {
      totalEvents := totalEvents + delta;
      if e.unknown {
        unknownEvents := unknownEvents + delta;
        unknownCodes := Bump(unknownCodes, e.code, delta);
        affectedStreams := Bump(affectedStreams, e.streamerId, delta);
      }
    }

    method CountAnomaly(x: AnomalyInfo, delta: int)
      modifies `malformedPackets, `affectedStreams
      ensures Current() == AdjustAnomaly(old(Current()), x, delta)
    {
      if x.malformed {
        malformedPackets := malformedPackets + delta;
        affectedStreams := Bump(affectedStreams, x.streamerId, delta);
      }
    }

    /** Uncounts the event at the head, which is about to be passed. */
    method UncountEvent()
      requires Counted() && eventHead < |events|
      modifies `totalEvents, `unknownEvents, `unknownCodes, `affectedStreams
      ensures Current() == Recount(events[eventHead + 1..], LiveAnomalies())
    {
      ghost var es := LiveEvents();
      assert es[1..] == events[eventHead + 1..];
      RecountWithoutFirstEvent(es, LiveAnomalies());
      CountEvent(events[eventHead].item, -1);
    }

    /** Moves the event head past one event and uncounts it. */
    method ForgetEvent()
      requires Counted() && eventHead < |events|
      modifies `eventHead, `totalEvents, `unknownEvents, `unknownCodes, `affectedStreams
      ensures Counted() && eventHead == old(eventHead) + 1
    {
      UncountEvent();
      eventHead := eventHead + 1;
    }

    method UncountAnomaly()
      requires Counted() && anomalyHead < |anomalies|
      modifies `malformedPackets, `affectedStreams
      ensures Current() == Recount(LiveEvents(), anomalies[anomalyHead + 1..])
    {
      ghost var es, xs := LiveEvents(), LiveAnomalies();
      assert xs[1..] == anomalies[anomalyHead + 1..];
      RecountWithoutFirstAnomaly(es, xs);
      CountAnomaly(anomalies[anomalyHead].item, -1);
      assert Current() == Recount(es, xs[1..]);
    }

    method ForgetAnomaly()
      requires Counted() && anomalyHead < |anomalies|
      modifies `anomalyHead, `malformedPackets, `affectedStreams
      ensures Counted() && anomalyHead == old(anomalyHead) + 1
    {
      UncountAnomaly();
      anomalyHead := anomalyHead + 1;
    }

    method ExpireEvents(cutoff: int)
      requires Counted()
      modifies `eventHead, `totalEvents, `unknownEvents, `unknownCodes, `affectedStreams
      ensures Counted() && LiveEvents() == DropOld(old(LiveEvents()), cutoff)
    {
      while eventHead < |events| && events[eventHead].at < cutoff
        invariant Counted()
        invariant DropOld(LiveEvents(), cutoff) == DropOld(old(LiveEvents()), cutoff)
        decreases |events| - eventHead
      {
        assert LiveEvents()[1..] == events[eventHead + 1..];
        ForgetEvent();
      }
    }

    method ExpireAnomalies(cutoff: int)
      requires Counted()
      modifies `anomalyHead, `malformedPackets, `affectedStreams
      ensures Counted() && LiveAnomalies() == DropOld(old(LiveAnomalies()), cutoff)
    {
      while anomalyHead < |anomalies| && anomalies[anomalyHead].at < cutoff
        invariant Counted()
        invariant DropOld(LiveAnomalies(), cutoff) == DropOld(old(LiveAnomalies()), cutoff)
        decreases |anomalies| - anomalyHead
      {
        assert LiveAnomalies()[1..] == anomalies[anomalyHead + 1..];
        ForgetAnomaly();
      }
    }

    method Expire(cutoff: int)
      requires Counted()
      modifies `eventHead, `anomalyHead, `totalEvents, `unknownEvents, `malformedPackets, `unknownCodes,
               `affectedStreams
      ensures Counted()
      ensures LiveEvents() == DropOld(old(LiveEvents()), cutoff)
              && LiveAnomalies() == DropOld(old(LiveAnomalies()), cutoff)
    {
      ghost var es, xs := DropOld(LiveEvents(), cutoff), DropOld(LiveAnomalies(), cutoff);
      ExpireEvents(cutoff);
      ExpireAnomalies(cutoff);
      assert LiveEvents() == es;
      assert LiveAnomalies() == xs;
    }

    /** Drops the dead part of a list when it is both large and more than half of the list. */
    method Compact()
      requires Counted()
      modifies `events, `anomalies, `eventHead, `anomalyHead
      ensures Counted() && LiveEvents() == old(LiveEvents()) && LiveAnomalies() == old(LiveAnomalies())
      ensures eventHead <= 4096 || 2 * eventHead <= |events|
      ensures anomalyHead <= 2048 || 2 * anomalyHead <= |anomalies|
    {
      if eventHead > 4096 && 2 * eventHead > |events| {
        events, eventHead := events[eventHead..], 0;
      }
      if anomalyHead > 2048 && 2 * anomalyHead > |anomalies| {
        anomalies, anomalyHead := anomalies[anomalyHead..], 0;
      }
    }

    /** Expires both windows at the given time, then compacts. */
    method Prune(now: int)
      requires Counted()
      modifies `events, `anomalies, `eventHead, `anomalyHead, `totalEvents, `unknownEvents, `malformedPackets,
               `unknownCodes, `affectedStreams
      ensures Counted()
      ensures LiveEvents() == DropOld(old(LiveEvents()), Cutoff(cfg, now))
      ensures LiveAnomalies() == DropOld(old(LiveAnomalies()), Cutoff(cfg, now))
      ensures eventHead <= 4096 || 2 * eventHead <= |events|
      ensures anomalyHead <= 2048 || 2 * anomalyHead <= |anomalies|
    {
      ghost var es, xs := DropOld(LiveEvents(), Cutoff(cfg, now)), DropOld(LiveAnomalies(), Cutoff(cfg, now));
      Expire(Cutoff(cfg, now));
      assert LiveEvents() == es && LiveAnomalies() == xs;
      Compact();
      assert LiveEvents() == es && LiveAnomalies() == xs;
    }

    method CapEvents()
      requires Counted()
      modifies `eventHead, `totalEvents, `unknownEvents, `unknownCodes, `affectedStreams
      ensures Counted() && LiveEvents() == LastOf(old(LiveEvents()), cfg.maxEvents)
    {
      while |events| - eventHead > cfg.maxEvents
        invariant Counted() && old(eventHead) <= eventHead
        invariant eventHead == old(eventHead) || |events| - eventHead >= cfg.maxEvents
        decreases |events| - eventHead
      {
        ForgetEvent();
      }
    }

    method CapAnomalies()
      requires Counted()
      modifies `anomalyHead, `malformedPackets, `affectedStreams
      ensures Counted() && LiveAnomalies() == LastOf(old(LiveAnomalies()), cfg.maxAnomalies)
    {
      while |anomalies| - anomalyHead > cfg.maxAnomalies
        invariant Counted() && old(anomalyHead) <= anomalyHead
        invariant anomalyHead == old(anomalyHead) || |anomalies| - anomalyHead >= cfg.maxAnomalies
        decreases |anomalies| - anomalyHead
      {
        ForgetAnomaly();
      }
    }

    /** Forgets the oldest items of a window over its cap; the backing lists keep their length. */
    method Cap()
      requires Counted()
      modifies `eventHead, `anomalyHead, `totalEvents, `unknownEvents, `malformedPackets, `unknownCodes,
               `affectedStreams
      ensures Counted()
      ensures LiveEvents() == LastOf(old(LiveEvents()), cfg.maxEvents)
      ensures LiveAnomalies() == LastOf(old(LiveAnomalies()), cfg.maxAnomalies)
    {
      CapEvents();
      CapAnomalies();
    }

    /** Expiry and compaction when one item has just been recorded: the backing lists are back within
        their bounds, though a window may still be one over its cap. */
    method PruneBounded(at: int)
      requires Counted()
      requires |LiveEvents()| <= cfg.maxEvents + 1 && |LiveAnomalies()| <= cfg.maxAnomalies + 1
      modifies `events, `anomalies, `eventHead, `anomalyHead, `totalEvents, `unknownEvents, `malformedPackets,
               `unknownCodes, `affectedStreams
      ensures Counted()
      ensures LiveEvents() == DropOld(old(LiveEvents()), Cutoff(cfg, at))
      ensures LiveAnomalies() == DropOld(old(LiveAnomalies()), Cutoff(cfg, at))
      ensures |events| <= cfg.maxEvents + 1 + Larger(4096, cfg.maxEvents + 1)
      ensures |anomalies| <= cfg.maxAnomalies + 1 + Larger(2048, cfg.maxAnomalies + 1)
    {
      DropOldShrinks(LiveEvents(), Cutoff(cfg, at));
      DropOldShrinks(LiveAnomalies(), Cutoff(cfg, at));
      Prune(at);
      BackingBound(|events|, eventHead, cfg.maxEvents, 4096);
      BackingBound(|anomalies|, anomalyHead, cfg.maxAnomalies, 2048);
    }

    /** Expiry, compaction and caps, as they follow the recording of one item. */
    method Tidy(at: int)
      requires Counted()
      requires |LiveEvents()| <= cfg.maxEvents + 1 && |LiveAnomalies()| <= cfg.maxAnomalies + 1
      modifies `events, `anomalies, `eventHead, `anomalyHead, `totalEvents, `unknownEvents, `malformedPackets,
               `unknownCodes, `affectedStreams
      ensures Counted() && Bounded()
      ensures LiveEvents() == LastOf(DropOld(old(LiveEvents()), Cutoff(cfg, at)), cfg.maxEvents)
      ensures LiveAnomalies() == LastOf(DropOld(old(LiveAnomalies()), Cutoff(cfg, at)), cfg.maxAnomalies)
    {
      ghost var es, xs := DropOld(LiveEvents(), Cutoff(cfg, at)), DropOld(LiveAnomalies(), Cutoff(cfg, at));
      PruneBounded(at);
      Cap();
      assert LiveEvents() == LastOf(es, cfg.maxEvents) && LiveAnomalies() == LastOf(xs, cfg.maxAnomalies);
    }

    /** What every observation does after recording its item. */
    method Settle(at: int) returns (incident: Option<Incident>)
      requires Counted()
      requires |LiveEvents()| <= cfg.maxEvents + 1 && |LiveAnomalies()| <= cfg.maxAnomalies + 1
      modifies this
      ensures Valid()
      ensures var t := Shrink(cfg, old(View()), at);
              incident == AlertFor(cfg, at, t.lastAlertAt, t.events, t.anomalies) && View() == Raise(t, incident)
    {
      ghost var es := LastOf(DropOld(LiveEvents(), Cutoff(cfg, at)), cfg.maxEvents);
      ghost var xs := LastOf(DropOld(LiveAnomalies(), Cutoff(cfg, at)), cfg.maxAnomalies);
      ghost var t := State(es, xs, lastAlertAt, incidents);
      assert t == Shrink(cfg, View(), at);
      Tidy(at);
      assert View() == t;
      incident := Evaluate(at);
      assert LiveEvents() == es && LiveAnomalies() == xs;
    }

    /** Counts an event that is about to be recorded. */
    method CountNewEvent(e: Timed<EventInfo>)
      requires Counted()
      modifies `totalEvents, `unknownEvents, `unknownCodes, `affectedStreams
      ensures Current() == Recount(LiveEvents() + [e], LiveAnomalies())
    {
      RecountWithEvent(LiveEvents(), LiveAnomalies(), e);
      CountEvent(e.item, 1);
    }

    method CountNewAnomaly(x: Timed<AnomalyInfo>)
      requires Counted()
      modifies `malformedPackets, `affectedStreams
      ensures Current() == Recount(LiveEvents(), LiveAnomalies() + [x])
    {
      RecountWithAnomaly(LiveEvents(), LiveAnomalies(), x);
      CountAnomaly(x.item, 1);
    }

    method RecordEvent(e: Timed<EventInfo>)
      requires Counted()
      modifies `events, `totalEvents, `unknownEvents, `unknownCodes, `affectedStreams
      ensures Counted() && LiveEvents() == old(LiveEvents()) + [e]
    {
      CountNewEvent(e);
      assert (events + [e])[eventHead..] == LiveEvents() + [e];
      events := events + [e];
    }

    method RecordAnomaly(x: Timed<AnomalyInfo>)
      requires Counted()
      modifies `anomalies, `malformedPackets, `affectedStreams
      ensures Counted() && LiveAnomalies() == old(LiveAnomalies()) + [x]
    {
      CountNewAnomaly(x);
      assert (anomalies + [x])[anomalyHead..] == LiveAnomalies() + [x];
      anomalies := anomalies + [x];
    }

    method ObserveEvent(e: Timed<EventInfo>) returns (incident: Option<Incident>)
      requires Valid()
      modifies this
      ensures Valid() && (View(), incident) == Observe(cfg, old(View()), SawEvent(e))
    {
      RecordEvent(e);
      assert View() == old(View()).(events := old(View()).events + [e], anomalies := old(View()).anomalies + []);
      incident := Settle(e.at);
    }

    method ObserveAnomaly(x: Timed<AnomalyInfo>) returns (incident: Option<Incident>)
      requires Valid()
      modifies this
      ensures Valid() && (View(), incident) == Observe(cfg, old(View()), SawAnomaly(x))
    {
      RecordAnomaly(x);
      assert View() == old(View()).(events := old(View()).events + [], anomalies := old(View()).anomalies + [x]);
      incident := Settle(x.at);
    }

    /** The alert rule over the running counters. */
    method Judge(now: int) returns (incident: Option<Incident>)
      requires Counted()
      ensures incident == AlertFor(cfg, now, lastAlertAt, LiveEvents(), LiveAnomalies())
    {
      incident := None;
      if now - lastAlertAt < cfg.alertCooldownMs {
        return;
      }
      var ratio := if totalEvents > 0 then unknownEvents as real / totalEvents as real else 0.0;
      var streamCount := |affectedStreams|;
      if unknownEvents >= cfg.minUnknown && streamCount >= cfg.minStreams && ratio >= cfg.unknownRatio {
        incident := Some(Incident(now, UnknownRate, ratio >= Max(0.2, cfg.unknownRatio * 2.0), totalEvents,
            unknownEvents, malformedPackets, streamCount, ratio));
      } else if malformedPackets >= cfg.minMalformed && streamCount >= cfg.minStreams {
        incident := Some(Incident(now, MalformedRate, malformedPackets >= cfg.minMalformed * 2, totalEvents,
            unknownEvents, malformedPackets, streamCount, ratio));
      }
    }

    /** Keeps the last hundred incidents. */
    method Log(incident: Incident)
      requires |incidents| <= 100
      modifies `incidents, `lastAlertAt
      ensures incidents == LastOf(old(incidents) + [incident], 100) && |incidents| <= 100
      ensures lastAlertAt == incident.detectedAt
    {
      incidents := incidents + [incident];
      if |incidents| > 100 {
        incidents := incidents[1..];
      }
      lastAlertAt := incident.detectedAt;
    }

    method Evaluate(now: int) returns (incident: Option<Incident>)
      requires Counted()
      modifies `incidents, `lastAlertAt
      ensures incident == AlertFor(cfg, now, old(lastAlertAt), LiveEvents(), LiveAnomalies())
      ensures Counted() && View() == Raise(old(View()), incident)
    {
      ghost var s := View();
      incident := Judge(now);
      if incident.Some? {
        Log(incident.value);
      }
      assert View() == Raise(s, incident);
    }
  }

  // ---------- runs of the detector ----------

  /** One more observation: the state that both observing methods promise is that of the longer run. */
  lemma {:induction false} ObservesOn(cfg: Config, before: State, after: State, history: seq<Observation>,
                                      o: Observation)
    requires before == Run(cfg, history) && after == Observe(cfg, before, o).0
    ensures after == Run(cfg, history + [o])
  {
    RunNext(cfg, history, o);
  }

  lemma CountersOf(d: ProtocolDriftDetector, es: seq<Timed<EventInfo>>, xs: seq<Timed<AnomalyInfo>>)
    requires d.Valid() && d.LiveEvents() == es && d.LiveAnomalies() == xs
    ensures d.Current() == Recount(es, xs)
  {
  }

  lemma LiveInView(d: ProtocolDriftDetector, s: State)
    requires d.View() == s
    ensures d.LiveEvents() == s.events && d.LiveAnomalies() == s.anomalies
  {
  }

  /** Main result.  After non-decreasing observations the five running counters of the detector are the
      recount of everything the whole history has in the window, as long as the caps have room for it. */
  lemma {:induction false} CountersCountTheWindow(d: ProtocolDriftDetector, history: seq<Observation>)
    requires d.Valid() && d.View() == Run(d.cfg, history)
    requires NonDecreasing(history) && history != []
    requires |EventsInWindow(d.cfg, history)| <= d.cfg.maxEvents
    requires |AnomaliesInWindow(d.cfg, history)| <= d.cfg.maxAnomalies
    ensures d.Current() == Recount(EventsInWindow(d.cfg, history), AnomaliesInWindow(d.cfg, history))
  {
    WindowUncutIff(d.cfg, history);
    LiveInView(d, Run(d.cfg, history));
    CountersOf(d, EventsInWindow(d.cfg, history), AnomaliesInWindow(d.cfg, history));
  }

  /** And the event total is that recount's exactly when the event cap has room. */
  lemma {:induction false} TotalCountsTheWindowIff(d: ProtocolDriftDetector, history: seq<Observation>)
    requires d.Valid() && d.View() == Run(d.cfg, history)
    requires NonDecreasing(history) && history != []
    ensures d.totalEvents == |EventsInWindow(d.cfg, history)| <==> |EventsInWindow(d.cfg, history)| <= d.cfg.maxEvents
  {
    WindowIsExact(d.cfg, history);
    LiveInView(d, Run(d.cfg, history));
  }
}
