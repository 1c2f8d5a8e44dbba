/** When the drift detector raises an incident, said of the live windows alone: how many unknown events and
    malformed packets they hold, on how many streams, and when the last incident was. */
module DriftAlerts {
  import opened Collections
  import opened DriftWindow

  // ---------- what the windows hold ----------

  /** The places of the unknown events. */
  function UnknownAt(es: seq<Timed<EventInfo>>): set<nat> {
    set i: nat | i < |es| && es[i].item.unknown
  }

  function MalformedAt(xs: seq<Timed<AnomalyInfo>>): set<nat> {
    set i: nat | i < |xs| && xs[i].item.malformed
  }

  /** The streams with an unknown event or a malformed packet. */
  function Troubled(es: seq<Timed<EventInfo>>, xs: seq<Timed<AnomalyInfo>>): set<string> {
    (set i | i in UnknownAt(es) :: es[i].item.streamerId) + (set i | i in MalformedAt(xs) :: xs[i].item.streamerId)
  }

  lemma {:induction false} UnknownAtSnoc(es: seq<Timed<EventInfo>>, e: Timed<EventInfo>)
    ensures |UnknownAt(es + [e])| == |UnknownAt(es)| + if e.item.unknown then 1 else 0
  {
    assert UnknownAt(es + [e]) == UnknownAt(es) + if e.item.unknown then {|es|} else {};
  }

  lemma {:induction false} UnknownsCounted(es: seq<Timed<EventInfo>>)
    ensures UnknownCount(es) == |UnknownAt(es)|
    decreases |es|
  {
    if es == [] {
      assert UnknownAt(es) == {};
    } else {
      var init, last := es[..|es| - 1], es[|es| - 1];
      UnknownsCounted(init);
      assert es == init + [last];
      AppendUnknown(init, last);
      UnknownAtSnoc(init, last);
    }
  }

  lemma {:induction false} MalformedAtSnoc(xs: seq<Timed<AnomalyInfo>>, x: Timed<AnomalyInfo>)
    ensures |MalformedAt(xs + [x])| == |MalformedAt(xs)| + if x.item.malformed then 1 else 0
  {
    assert MalformedAt(xs + [x]) == MalformedAt(xs) + if x.item.malformed then {|xs|} else {};
  }

  lemma {:induction false} MalformedNext(xs: seq<Timed<AnomalyInfo>>, x: Timed<AnomalyInfo>)
    ensures MalformedCount(xs + [x]) == MalformedCount(xs) + if x.item.malformed then 1 else 0
  {
    AppendAnomaly(xs, x);
  }

  lemma {:induction false} MalformedCounted(xs: seq<Timed<AnomalyInfo>>)
    ensures MalformedCount(xs) == |MalformedAt(xs)|
    decreases |xs|
  {
    if xs == [] {
      assert MalformedAt(xs) == {};
    } else {
      var init, last := xs[..|xs| - 1], xs[|xs| - 1];
      MalformedCounted(init);
      assert xs == init + [last];
      MalformedNext(init, last);
      MalformedAtSnoc(init, last);
    }
  }

  lemma StreamsCounted(es: seq<Timed<EventInfo>>, xs: seq<Timed<AnomalyInfo>>)
    ensures |Tally(Affected(es, xs))| == |Troubled(es, xs)|
  {
    forall s ensures s in Tally(Affected(es, xs)).Keys <==> s in Troubled(es, xs) {
      AffectedIff(es, xs, s);
      assert (exists i :: 0 <= i < |es| && es[i].item.unknown && es[i].item.streamerId == s)
        <==> exists i :: i in UnknownAt(es) && es[i].item.streamerId == s;
      assert (exists i :: 0 <= i < |xs| && xs[i].item.malformed && xs[i].item.streamerId == s)
        <==> exists i :: i in MalformedAt(xs) && xs[i].item.streamerId == s;
    }
    assert Tally(Affected(es, xs)).Keys == Troubled(es, xs);
  }

  // ---------- what the tallies hold ----------

  function CodeAt(es: seq<Timed<EventInfo>>, code: int): set<nat> {
    set i | i in UnknownAt(es) && es[i].item.code == code
  }

  function StreamAt(es: seq<Timed<EventInfo>>, s: string): set<nat> {
    set i | i in UnknownAt(es) && es[i].item.streamerId == s
  }

  function MalformedStreamAt(xs: seq<Timed<AnomalyInfo>>, s: string): set<nat> {
    set i | i in MalformedAt(xs) && xs[i].item.streamerId == s
  }

  lemma {:induction false} CodeAtSnoc(es: seq<Timed<EventInfo>>, e: Timed<EventInfo>, code: int)
    ensures |CodeAt(es + [e], code)| == |CodeAt(es, code)| + if e.item.unknown && e.item.code == code then 1 else 0
  {
    assert CodeAt(es + [e], code) == CodeAt(es, code) + if e.item.unknown && e.item.code == code then {|es|} else {};
  }

  lemma {:induction false} CodesCounted(es: seq<Timed<EventInfo>>, code: int)
    ensures UnknownCodes(es)[code] == |CodeAt(es, code)|
    decreases |es|
  {
    if es == [] {
      assert CodeAt(es, code) == {};
    } else {
      var init, last := es[..|es| - 1], es[|es| - 1];
      CodesCounted(init, code);
      assert es == init + [last];
      AppendCode(init, last);
      CodeAtSnoc(init, last, code);
    }
  }

  lemma {:induction false} StreamAtSnoc(es: seq<Timed<EventInfo>>, e: Timed<EventInfo>, s: string)
    ensures |StreamAt(es + [e], s)| == |StreamAt(es, s)| + if e.item.unknown && e.item.streamerId == s then 1 else 0
  {
    assert StreamAt(es + [e], s) == StreamAt(es, s) + if e.item.unknown && e.item.streamerId == s then {|es|} else {};
  }

  lemma {:induction false} UnknownStreamsCounted(es: seq<Timed<EventInfo>>, s: string)
    ensures UnknownStreams(es)[s] == |StreamAt(es, s)|
    decreases |es|
  {
    if es == [] {
      assert StreamAt(es, s) == {};
    } else {
      var init, last := es[..|es| - 1], es[|es| - 1];
      UnknownStreamsCounted(init, s);
      assert es == init + [last];
      AppendStream(init, last);
      StreamAtSnoc(init, last, s);
    }
  }

  lemma {:induction false} MalformedStreamAtSnoc(xs: seq<Timed<AnomalyInfo>>, x: Timed<AnomalyInfo>, s: string)
    ensures |MalformedStreamAt(xs + [x], s)|
         == |MalformedStreamAt(xs, s)| + if x.item.malformed && x.item.streamerId == s then 1 else 0
  {
    assert MalformedStreamAt(xs + [x], s)
        == MalformedStreamAt(xs, s) + if x.item.malformed && x.item.streamerId == s then {|xs|} else {};
  }

  lemma {:induction false} MalformedStreamsCounted(xs: seq<Timed<AnomalyInfo>>, s: string)
    ensures MalformedStreams(xs)[s] == |MalformedStreamAt(xs, s)|
    decreases |xs|
  {
    if xs == [] {
      assert MalformedStreamAt(xs, s) == {};
    } else {
      var init, last := xs[..|xs| - 1], xs[|xs| - 1];
      MalformedStreamsCounted(init, s);
      assert xs == init + [last];
      AppendAnomaly(init, last);
      MalformedStreamAtSnoc(init, last, s);
    }
  }

  /** Each tally counts exactly: a code by the unknown events that carry it, a stream by its unknown events
      and malformed packets; what no live item mentions is not listed. */
  lemma TalliesCount(es: seq<Timed<EventInfo>>, xs: seq<Timed<AnomalyInfo>>, code: int, s: string)
    ensures Get0(Tally(UnknownCodes(es)), code) == |CodeAt(es, code)|
    ensures Get0(Tally(Affected(es, xs)), s) == |StreamAt(es, s)| + |MalformedStreamAt(xs, s)|
    ensures code in Tally(UnknownCodes(es)) <==> CodeAt(es, code) != {}
  {
    CodesCounted(es, code);
    UnknownStreamsCounted(es, s);
    MalformedStreamsCounted(xs, s);
  }

  /** A count, 0 if there is none. */
  function Get0<K(==)>(m: map<K, nat>, k: K): nat {
    if k in m then m[k] else 0
  }

  // ---------- the two rules ----------

  /** At least this share of the events is unknown; no events count as none unknown. */
  predicate ShareAtLeast(unknown: nat, total: nat, share: real) {
    if total == 0 then share <= 0.0 else unknown as real >= share * total as real
  }

  predicate ManyUnknown(cfg: Config, es: seq<Timed<EventInfo>>, xs: seq<Timed<AnomalyInfo>>) {
    && |UnknownAt(es)| >= cfg.minUnknown && |Troubled(es, xs)| >= cfg.minStreams
    && ShareAtLeast(|UnknownAt(es)|, |es|, cfg.unknownRatio)
  }

  predicate ManyMalformed(cfg: Config, es: seq<Timed<EventInfo>>, xs: seq<Timed<AnomalyInfo>>) {
    |MalformedAt(xs)| >= cfg.minMalformed && |Troubled(es, xs)| >= cfg.minStreams
  }

  /** An unknown rate is severe at a fifth of the events and at twice the limit, malformed packets at twice
      theirs. */
  predicate Severe(cfg: Config, es: seq<Timed<EventInfo>>, xs: seq<Timed<AnomalyInfo>>) {
    if ManyUnknown(cfg, es, xs) then
      && ShareAtLeast(|UnknownAt(es)|, |es|, 0.2)
      && ShareAtLeast(|UnknownAt(es)|, |es|, 2.0 * cfg.unknownRatio)
    else |MalformedAt(xs)| >= 2 * cfg.minMalformed
  }

  lemma Distributes(a: real, b: real, n: real)
    ensures (a - b) * n == a * n - b * n
  {
  }

  lemma RatioAtLeast(u: real, n: real, share: real)
    requires n > 0.0
    ensures u / n >= share <==> u >= share * n
  {
    var r := u / n;
    assert r * n == u;
    Distributes(r, share, n);
    if r >= share {
      assert (r - share) * n >= 0.0;
    } else {
      assert (r - share) * n < 0.0;
    }
  }

  /** The ratio that the rule compares. */
  lemma RatioMeans(u: nat, n: nat, ratio: real, share: real)
    requires ratio == (if n > 0 then u as real / n as real else 0.0) && (n == 0 ==> u == 0)
    ensures ratio >= share <==> ShareAtLeast(u, n, share)
  {
    if n > 0 {
      RatioAtLeast(u as real, n as real, share);
    }
  }

  lemma NoEventsNoUnknown(es: seq<Timed<EventInfo>>)
    requires es == []
    ensures |UnknownAt(es)| == 0
  {
    assert UnknownAt(es) == {};
  }

  function Ratio(u: nat, n: nat): real {
    if n > 0 then u as real / n as real else 0.0
  }

  /** The rule on given counts: u of n events unknown, m packets malformed, k streams in trouble. */
  lemma AlertMeans(cfg: Config, now: int, last: int, n: nat, u: nat, m: nat, k: nat)
    requires n == 0 ==> u == 0
    ensures var incident := Alert(cfg, now, last, n, u, m, k);
            var unknown := u >= cfg.minUnknown && k >= cfg.minStreams && ShareAtLeast(u, n, cfg.unknownRatio);
            && (incident.Some? <==>
                  now - last >= cfg.alertCooldownMs && (unknown || (m >= cfg.minMalformed && k >= cfg.minStreams)))
            && (incident.Some? ==>
                  var severe := if unknown then ShareAtLeast(u, n, 0.2) && ShareAtLeast(u, n, 2.0 * cfg.unknownRatio)
                                else m >= 2 * cfg.minMalformed;
                  incident.value ==
                  Incident(now, if unknown then UnknownRate else MalformedRate, severe, n, u, m, k, Ratio(u, n)))
  {
    RatioMeans(u, n, Ratio(u, n), cfg.unknownRatio);
    RatioMeans(u, n, Ratio(u, n), 2.0 * cfg.unknownRatio);
    RatioMeans(u, n, Ratio(u, n), 0.2);
  }

  /** What an incident says. */
  predicate Describes(cfg: Config, x: Incident, at: int, es: seq<Timed<EventInfo>>, xs: seq<Timed<AnomalyInfo>>) {
    && x.detectedAt == at
    && x.reason == (if ManyUnknown(cfg, es, xs) then UnknownRate else MalformedRate)
    && (x.severe <==> Severe(cfg, es, xs))
    && x.totalEvents == |es| && x.unknownEvents == |UnknownAt(es)| && x.malformedPackets == |MalformedAt(xs)|
    && x.affectedStreams == |Troubled(es, xs)| && x.unknownRatio == Ratio(|UnknownAt(es)|, |es|)
  }

  lemma RuleOnCounts(cfg: Config, now: int, last: int, es: seq<Timed<EventInfo>>, xs: seq<Timed<AnomalyInfo>>)
    ensures AlertFor(cfg, now, last, es, xs) ==
            Alert(cfg, now, last, |es|, |UnknownAt(es)|, |MalformedAt(xs)|, |Troubled(es, xs)|)
    ensures |es| == 0 ==> |UnknownAt(es)| == 0
  {
    UnknownsCounted(es);
    MalformedCounted(xs);
    StreamsCounted(es, xs);
    if es == [] {
      NoEventsNoUnknown(es);
    }
  }

  lemma AlertDescribes(cfg: Config, now: int, last: int, es: seq<Timed<EventInfo>>, xs: seq<Timed<AnomalyInfo>>,
                       n: nat, u: nat, m: nat, k: nat)
    requires n == |es| && u == |UnknownAt(es)| && m == |MalformedAt(xs)| && k == |Troubled(es, xs)|
    requires n == 0 ==> u == 0
    ensures var incident := Alert(cfg, now, last, n, u, m, k);
            && (incident.Some? <==>
                  now - last >= cfg.alertCooldownMs && (ManyUnknown(cfg, es, xs) || ManyMalformed(cfg, es, xs)))
            && (incident.Some? ==> Describes(cfg, incident.value, now, es, xs))
  {
    AlertMeans(cfg, now, last, n, u, m, k);
  }

  lemma RuleMeans(cfg: Config, now: int, last: int, es: seq<Timed<EventInfo>>, xs: seq<Timed<AnomalyInfo>>)
    ensures var incident := AlertFor(cfg, now, last, es, xs);
            && (incident.Some? <==>
                  now - last >= cfg.alertCooldownMs && (ManyUnknown(cfg, es, xs) || ManyMalformed(cfg, es, xs)))
            && (incident.Some? ==> Describes(cfg, incident.value, now, es, xs))
  {
    RuleOnCounts(cfg, now, last, es, xs);
    AlertDescribes(cfg, now, last, es, xs, |es|, |UnknownAt(es)|, |MalformedAt(xs)|, |Troubled(es, xs)|);
  }

  // ---------- over every history ----------

  /** When the last incident was reported; the clock starts at 0. */
  function LastAlert(cfg: Config, history: seq<Observation>): int {
    var r := Reported(cfg, history);
    if r == [] then 0 else r[|r| - 1].detectedAt
  }

  ghost predicate Remembered(s: State, r: seq<Incident>) {
    s.lastAlertAt == if r == [] then 0 else r[|r| - 1].detectedAt
  }

  lemma RememberedOn(cfg: Config, s: State, r: seq<Incident>, o: Observation)
    requires Remembered(s, r)
    ensures Remembered(Observe(cfg, s, o).0, r + ListOf(Observe(cfg, s, o).1))
  {
    ObserveAlerts(cfg, s, o);
    assert r + [] == r;
  }

  lemma {:induction false} AlertsRemembered(cfg: Config, history: seq<Observation>)
    ensures Remembered(Run(cfg, history), Reported(cfg, history))
    decreases |history|
  {
    if history != [] {
      var before, o := history[..|history| - 1], history[|history| - 1];
      AlertsRemembered(cfg, before);
      RememberedOn(cfg, Run(cfg, before), Reported(cfg, before), o);
    }
  }

  lemma ObserveReports(cfg: Config, s: State, o: Observation)
    ensures var (t, incident) := Observe(cfg, s, o);
            incident == AlertFor(cfg, At(o), s.lastAlertAt, t.events, t.anomalies)
  {
  }

  /** Main result.  After any history, whatever its timestamps, an observation reports an incident exactly when
      the cooldown since the last report is over and the live windows hold enough unknown events, as a number
      and as a share, or enough malformed packets, on enough streams; and it reports what they hold. */
  lemma {:induction false} IncidentIff(cfg: Config, history: seq<Observation>, o: Observation)
    ensures var (t, incident) := Observe(cfg, Run(cfg, history), o);
            && (incident.Some? <==>
                  At(o) - LastAlert(cfg, history) >= cfg.alertCooldownMs
                  && (ManyUnknown(cfg, t.events, t.anomalies) || ManyMalformed(cfg, t.events, t.anomalies)))
            && (incident.Some? ==> Describes(cfg, incident.value, At(o), t.events, t.anomalies))
  {
    var s := Run(cfg, history);
    AlertsRemembered(cfg, history);
    ObserveReports(cfg, s, o);
    RuleMeans(cfg, At(o), s.lastAlertAt, Observe(cfg, s, o).0.events, Observe(cfg, s, o).0.anomalies);
  }

  /** For non-decreasing timestamps the windows are those of the whole history. */
  lemma {:induction false} IncidentOfHistoryIff(cfg: Config, history: seq<Observation>, o: Observation)
    requires NonDecreasing(history + [o])
    ensures var es := LastOf(EventsInWindow(cfg, history + [o]), cfg.maxEvents);
            var xs := LastOf(AnomaliesInWindow(cfg, history + [o]), cfg.maxAnomalies);
            var incident := Observe(cfg, Run(cfg, history), o).1;
            && (incident.Some? <==>
                  At(o) - LastAlert(cfg, history) >= cfg.alertCooldownMs
                  && (ManyUnknown(cfg, es, xs) || ManyMalformed(cfg, es, xs)))
            && (incident.Some? ==> Describes(cfg, incident.value, At(o), es, xs))
  {
    IncidentIff(cfg, history, o);
    RunNext(cfg, history, o);
    WindowIsExact(cfg, history + [o]);
  }
}
