/** Delivered or gapped: over every run, what a client was owed is what it was sent or told it
    missed.  The only command excluded is `resume` by that same client; see `HubResume`. */
module HubDelivery {
  import opened Collections
  import opened HubProtocol

  /** An interval of sequence numbers accounted for by one frame. */
  datatype Span = Span(lo: nat, hi: nat)

  predicate Covers(s: Span, n: nat) {
    s.lo <= n <= s.hi
  }

  /** The interval a frame accounts for: an event accounts for itself, a gap for its range. */
  function SpanOf(f: Frame): seq<Span> {
    match f
    case EventFrame(n, _, _) => [Span(n, n)]
    case Gap(from, Some(last), _, _) => [Span(from, last)]
    case _ => []
  }

  function Spans(sent: seq<Frame>): seq<Span>
    decreases |sent|
  {
    if sent == [] then [] else Spans(sent[..|sent| - 1]) + SpanOf(sent[|sent| - 1])
  }

  function PendingSpan(c: Client): seq<Span> {
    if c.gapFrom.Some? && c.gapTo.Some? then [Span(c.gapFrom.value, c.gapTo.value)] else []
  }

  /** Everything accounted for so far: the frames sent, then the gap still pending. */
  function Accounted(c: Client): seq<Span> {
    Spans(c.sent) + PendingSpan(c)
  }

  /** Each interval lies strictly after the one before it, and none reaches beyond n. */
  predicate Ordered(spans: seq<Span>, n: nat)
    decreases |spans|
  {
    spans == []
    || var s := spans[|spans| - 1]; 1 <= s.lo <= s.hi <= n && Ordered(spans[..|spans| - 1], s.lo - 1)
  }

  predicate Covered(spans: seq<Span>, k: nat)
    decreases |spans|
  {
    spans != [] && (Covers(spans[|spans| - 1], k) || Covered(spans[..|spans| - 1], k))
  }

  predicate AllCovered(spans: seq<Span>, owed: seq<Sequenced>)
    decreases |owed|
  {
    owed == [] || (Covered(spans, owed[|owed| - 1].seqNo) && AllCovered(spans, owed[..|owed| - 1]))
  }

  predicate OwedNumber(owed: seq<Sequenced>, k: nat)
    decreases |owed|
  {
    owed != [] && (owed[|owed| - 1].seqNo == k || OwedNumber(owed[..|owed| - 1], k))
  }

  predicate OwedEvent(owed: seq<Sequenced>, item: Sequenced)
    decreases |owed|
  {
    owed != [] && (owed[|owed| - 1] == item || OwedEvent(owed[..|owed| - 1], item))
  }

  /** A frame the client may rely on: an event it was owed, or a gap that begins and ends with
      events it was owed and counts its own length. */
  predicate Honest(f: Frame, owed: seq<Sequenced>) {
    match f
    case EventFrame(n, replayed, e) => !replayed && OwedEvent(owed, Sequenced(n, e))
    case Gap(from, last, dropped, _) =>
      last.Some? && dropped == last.value - from + 1 && OwedNumber(owed, from) && OwedNumber(owed, last.value)
    case _ => true
  }

  predicate AllHonest(sent: seq<Frame>, owed: seq<Sequenced>)
    decreases |sent|
  {
    sent == [] || (Honest(sent[|sent| - 1], owed) && AllHonest(sent[..|sent| - 1], owed))
  }

  /** The number of the last event frame. */
  function LastDelivered(sent: seq<Frame>): Option<nat>
    decreases |sent|
  {
    if sent == [] then None
    else if sent[|sent| - 1].EventFrame? then Some(sent[|sent| - 1].seqNo)
    else LastDelivered(sent[..|sent| - 1])
  }

  predicate PendingOwed(c: Client, owed: seq<Sequenced>) {
    && (c.gapFrom.Some? <==> c.gapTo.Some?)
    && (c.gapFrom.Some? ==> OwedNumber(owed, c.gapFrom.value) && OwedNumber(owed, c.gapTo.value))
  }

  /** The account of one client after n broadcasts. */
  predicate Faithful(c: Client, owed: seq<Sequenced>, n: nat) {
    && PendingOwed(c, owed)
    && Ordered(Accounted(c), n)
    && AllCovered(Accounted(c), owed)
    && AllHonest(c.sent, owed)
    && c.lastSeq == LastDelivered(c.sent)
  }

  lemma SendAppends(c: Client, f: Frame, owed: seq<Sequenced>)
    ensures Spans(Send(c, f).sent) == Spans(c.sent) + SpanOf(f)
    ensures LastDelivered(Send(c, f).sent) == if f.EventFrame? then Some(f.seqNo) else LastDelivered(c.sent)
    ensures AllHonest(Send(c, f).sent, owed) <==> Honest(f, owed) && AllHonest(c.sent, owed)
  {
    assert Send(c, f).sent[..|c.sent|] == c.sent;
  }

  /** A frame that accounts for nothing changes nothing. */
  lemma SendQuiet(c: Client, f: Frame, owed: seq<Sequenced>, n: nat)
    requires Faithful(c, owed, n) && !f.EventFrame? && !f.Gap?
    ensures Faithful(Send(c, f), owed, n)
  {
    SendAppends(c, f, owed);
    assert Accounted(Send(c, f)) == Accounted(c);
  }

  lemma FlushAccounts(c: Client, current: nat)
    requires c.gapFrom.Some? <==> c.gapTo.Some?
    ensures Accounted(FlushGap(c, current)) == Accounted(c)
  {
    var sent := FlushGap(c, current).sent;
    assert c.gapFrom.Some? ==> sent[..|sent| - 1] == c.sent;
  }

  /** Flushing turns the pending interval into a frame, and accounts for exactly the same. */
  lemma FlushFaithful(c: Client, owed: seq<Sequenced>, n: nat, current: nat)
    requires Faithful(c, owed, n)
    ensures Faithful(FlushGap(c, current), owed, n)
    ensures FlushGap(c, current).gapFrom.None? && FlushGap(c, current).gapTo.None?
  {
    FlushAccounts(c, current);
    if c.gapFrom.Some? {
      SendAppends(c, Gap(c.gapFrom.value, c.gapTo, c.gapTo.value - c.gapFrom.value + 1, current), owed);
    }
  }

  // ---------- growth ----------

  lemma {:induction false} HonestGrows(sent: seq<Frame>, owed: seq<Sequenced>, item: Sequenced)
    requires AllHonest(sent, owed)
    ensures AllHonest(sent, owed + [item])
    decreases |sent|
  {
    if sent != [] {
      var f := sent[|sent| - 1];
      HonestGrows(sent[..|sent| - 1], owed, item);
      assert (owed + [item])[..|owed|] == owed;
    }
  }

  /** More intervals, or a longer last one, cover no less. */
  lemma {:induction false} CoverGrows(spans: seq<Span>, more: seq<Span>, owed: seq<Sequenced>)
    requires AllCovered(spans, owed)
    requires forall k :: Covered(spans, k) ==> Covered(more, k)
    ensures AllCovered(more, owed)
    decreases |owed|
  {
    if owed != [] {
      CoverGrows(spans, more, owed[..|owed| - 1]);
    }
  }

  lemma SpanAppended(spans: seq<Span>, owed: seq<Sequenced>, n: nat, item: Sequenced)
    requires Ordered(spans, n) && AllCovered(spans, owed) && item.seqNo == n + 1
    ensures Ordered(spans + [Span(item.seqNo, item.seqNo)], item.seqNo)
    ensures AllCovered(spans + [Span(item.seqNo, item.seqNo)], owed + [item])
  {
    var more := spans + [Span(item.seqNo, item.seqNo)];
    assert more[..|spans|] == spans;
    CoverGrows(spans, more, owed);
  }

  lemma SpanStretched(spans: seq<Span>, lo: nat, hi: nat, owed: seq<Sequenced>, n: nat, item: Sequenced)
    requires Ordered(spans + [Span(lo, hi)], n) && AllCovered(spans + [Span(lo, hi)], owed) && item.seqNo == n + 1
    ensures Ordered(spans + [Span(lo, item.seqNo)], item.seqNo)
    ensures AllCovered(spans + [Span(lo, item.seqNo)], owed + [item])
  {
    var was, more := spans + [Span(lo, hi)], spans + [Span(lo, item.seqNo)];
    assert was[..|spans|] == spans && more[..|spans|] == spans;
    CoverGrows(was, more, owed);
  }

  lemma MarkFaithful(c: Client, owed: seq<Sequenced>, n: nat, item: Sequenced)
    requires Faithful(c, owed, n) && item.seqNo == n + 1
    ensures Faithful(MarkGap(c, item.seqNo), owed + [item], item.seqNo)
  {
    HonestGrows(c.sent, owed, item);
    var told, marked := Spans(c.sent), MarkGap(c, item.seqNo);
    if c.gapFrom.Some? {
      SpanStretched(told, c.gapFrom.value, c.gapTo.value, owed, n, item);
      assert Accounted(marked) == told + [Span(c.gapFrom.value, item.seqNo)];
    } else {
      assert Accounted(c) == told;
      SpanAppended(told, owed, n, item);
      assert Accounted(marked) == told + [Span(item.seqNo, item.seqNo)];
    }
    assert PendingOwed(marked, owed + [item]);
  }

  /** An event frame sent with no gap pending accounts for the next number. */
  lemma EventFaithful(d: Client, owed: seq<Sequenced>, n: nat, item: Sequenced)
    requires Faithful(d, owed, n) && item.seqNo == n + 1 && d.gapFrom.None? && d.gapTo.None?
    requires Accounted(d) == Spans(d.sent)
    ensures Faithful(Send(d, EventFrame(item.seqNo, false, item.event)).(lastSeq := Some(item.seqNo)), owed + [item],
            item.seqNo)
  {
    var f := EventFrame(item.seqNo, false, item.event);
    var sent := Send(d, f).(lastSeq := Some(item.seqNo));
    HonestGrows(d.sent, owed, item);
    SendAppends(d, f, owed + [item]);
    SpanAppended(Spans(d.sent), owed, n, item);
    assert Accounted(sent) == Spans(d.sent) + [Span(item.seqNo, item.seqNo)];
    assert Honest(f, owed + [item]);
  }

  lemma DeliverFaithful(c: Client, owed: seq<Sequenced>, n: nat, item: Sequenced)
    requires Faithful(c, owed, n) && item.seqNo == n + 1
    ensures Faithful(Deliver(c, item, false, item.seqNo), owed + [item], item.seqNo)
  {
    FlushFaithful(c, owed, n, item.seqNo);
    assert Accounted(FlushGap(c, item.seqNo)) == Spans(FlushGap(c, item.seqNo).sent);
    EventFaithful(FlushGap(c, item.seqNo), owed, n, item);
  }

  lemma OfferRefused(c: Client, owed: seq<Sequenced>, n: nat, item: Sequenced, congested: bool)
    requires Faithful(c, owed, n) && item.seqNo == n + 1 && (c.phase != Open || !Matches(c, item.event))
    ensures Faithful(Offer(c, item, congested), owed + Owe(c, item), item.seqNo)
  {
    assert owed + Owe(c, item) == owed;
  }

  lemma OfferTaken(c: Client, owed: seq<Sequenced>, n: nat, item: Sequenced, congested: bool)
    requires Faithful(c, owed, n) && item.seqNo == n + 1 && c.phase == Open && Matches(c, item.event)
    ensures Faithful(Offer(c, item, congested), owed + Owe(c, item), item.seqNo)
  {
    if congested {
      MarkFaithful(c, owed, n, item);
    } else {
      DeliverFaithful(c, owed, n, item);
    }
  }

  /** One broadcast keeps the client's account in step with what it is owed. */
  lemma OfferFaithful(c: Client, owed: seq<Sequenced>, n: nat, item: Sequenced, congested: bool)
    requires Faithful(c, owed, n) && item.seqNo == n + 1
    ensures Faithful(Offer(c, item, congested), owed + Owe(c, item), item.seqNo)
  {
    if c.phase != Open || !Matches(c, item.event) {
      OfferRefused(c, owed, n, item, congested);
    } else {
      OfferTaken(c, owed, n, item, congested);
    }
  }

  /** Which steps the theorem allows for client c. */
  predicate NoResume(steps: seq<Step>, c: nat) {
    forall i :: 0 <= i < |steps| ==> !(steps[i].ResumeCommand? && steps[i].client == c)
  }

  lemma {:induction false} DropSubsKeeps(h: Hub, i: nat, ids: seq<string>)
    requires i < |h.clients|
    ensures DropSubs(h, i, ids).seqNo == h.seqNo
    ensures forall j :: 0 <= j < |h.clients| ==>
              DropSubs(h, i, ids).clients[j] == h.clients[j].(subs := DropSubs(h, i, ids).clients[j].subs)
    decreases |ids|
  {
    if ids != [] {
      DropSubsKeeps(h, i, ids[..|ids| - 1]);
    }
  }

  /** Changes to subscriptions, jobs, liveness and phase leave the account alone. */
  lemma FaithfulIgnores(c: Client, d: Client, owed: seq<Sequenced>, n: nat)
    requires Faithful(c, owed, n)
    requires d == c.(subs := d.subs, job := d.job, phase := d.phase, lastPongAt := d.lastPongAt)
    ensures Faithful(d, owed, n)
  {
    assert Accounted(d) == Accounted(c);
  }

  lemma FaithfulAtStart(now: int, n: nat)
    ensures Faithful(Connected(now, n), [], n)
  {
    var c := Connected(now, n);
    assert c.sent == [] + [Hello(n)];
    SendAppends(c.(sent := []), Hello(n), []);
  }

  ghost predicate FaithfulTo(w: World, c: nat) {
    c < |w.owed| == |w.hub.clients| && Faithful(w.hub.clients[c], w.owed[c], w.hub.seqNo)
  }

  lemma SubscribeFaithful(cfg: Config, w: World, s: Step, c: nat)
    requires FaithfulTo(w, c) && Enabled(w.hub, s) && s.SubscribeCommand?
    ensures FaithfulTo(Next(cfg, w, s), c)
  {
    var was := w.hub.clients[c];
    var now := Apply(cfg, w.hub, s).clients[c];
    if now.sent == was.sent {
      FaithfulIgnores(was, now, w.owed[c], w.hub.seqNo);
    } else {
      SendQuiet(was, SubscriptionLimit, w.owed[c], w.hub.seqNo);
    }
  }

  /** A leg of a subscribe command sends at most its final report. */
  lemma AdvanceAt(h: Hub, i: nat, c: nat)
    requires i < |h.clients| && c < |h.clients| && h.clients[i].job.Some?
    ensures var was, now := h.clients[c], AdvanceClient(h, i).clients[c];
            var quiet := if now.sent == was.sent then was
                else Send(was, Subscribed(h.clients[i].job.value.ids, h.seqNo));
            now == quiet.(subs := now.subs, job := now.job, phase := now.phase, lastPongAt := now.lastPongAt)
    ensures AdvanceClient(h, i).seqNo == h.seqNo && |AdvanceClient(h, i).clients| == |h.clients|
  {
  }

  lemma AdvanceFaithful(cfg: Config, w: World, s: Step, c: nat)
    requires FaithfulTo(w, c) && Enabled(w.hub, s) && s.Advance?
    ensures FaithfulTo(Next(cfg, w, s), c)
  {
    var was, now := w.hub.clients[c], AdvanceClient(w.hub, s.client).clients[c];
    AdvanceAt(w.hub, s.client, c);
    if now.sent == was.sent {
      FaithfulIgnores(was, now, w.owed[c], w.hub.seqNo);
    } else {
      var frame := Subscribed(w.hub.clients[s.client].job.value.ids, w.hub.seqNo);
      SendQuiet(was, frame, w.owed[c], w.hub.seqNo);
      FaithfulIgnores(Send(was, frame), now, w.owed[c], w.hub.seqNo);
    }
  }

  lemma UnsubscribeFaithful(cfg: Config, w: World, s: Step, c: nat)
    requires FaithfulTo(w, c) && Enabled(w.hub, s) && s.UnsubscribeCommand?
    ensures FaithfulTo(Next(cfg, w, s), c)
  {
    DropSubsKeeps(w.hub, s.client, s.ids);
    var now := DropSubs(w.hub, s.client, s.ids).clients[c];
    FaithfulIgnores(w.hub.clients[c], now, w.owed[c], w.hub.seqNo);
    if s.client == c {
      SendQuiet(now, Unsubscribed(s.ids, w.hub.seqNo), w.owed[c], w.hub.seqNo);
    }
  }

  lemma BroadcastAt(cfg: Config, w: World, s: Step, c: nat)
    requires c < |w.owed| == |w.hub.clients| && s.Broadcast?
    ensures var w', item := Next(cfg, w, s), Sequenced(w.hub.seqNo + 1, s.event);
            && c < |w'.owed| == |w'.hub.clients| && w'.hub.seqNo == w.hub.seqNo + 1
            && w'.hub.clients[c] == Offer(w.hub.clients[c], item, c in s.congested)
            && w'.owed[c] == w.owed[c] + Owe(w.hub.clients[c], item)
  {
  }

  lemma BroadcastFaithful(cfg: Config, w: World, s: Step, c: nat)
    requires FaithfulTo(w, c) && s.Broadcast?
    ensures FaithfulTo(Next(cfg, w, s), c)
  {
    var item := Sequenced(w.hub.seqNo + 1, s.event);
    OfferFaithful(w.hub.clients[c], w.owed[c], w.hub.seqNo, item, c in s.congested);
    BroadcastAt(cfg, w, s, c);
    assert Next(cfg, w, s).hub.seqNo == w.hub.seqNo + 1;
  }

  lemma BeatFaithful(c: Client, owed: seq<Sequenced>, n: nat, now: int, idleMs: int, congested: bool)
    requires Faithful(c, owed, n)
    ensures Faithful(Beat(c, now, idleMs, congested, n), owed, n)
  {
    if c.phase != Open {
    } else if now - c.lastPongAt > idleMs {
      FaithfulIgnores(c, c.(phase := Closing), owed, n);
    } else {
      FlushFaithful(c, owed, n, n);
    }
  }

  lemma HeartbeatAt(cfg: Config, w: World, s: Step, c: nat)
    requires c < |w.owed| == |w.hub.clients| && s.Heartbeat?
    ensures var w' := Next(cfg, w, s);
            && w'.owed == w.owed && c < |w'.hub.clients| == |w.owed| && w'.hub.seqNo == w.hub.seqNo
            && w'.hub.clients[c] == Beat(w.hub.clients[c], s.now, cfg.clientIdleMs, c in s.congested, w.hub.seqNo)
  {
  }

  lemma HeartbeatFaithful(cfg: Config, w: World, s: Step, c: nat)
    requires FaithfulTo(w, c) && s.Heartbeat?
    ensures FaithfulTo(Next(cfg, w, s), c)
  {
    BeatFaithful(w.hub.clients[c], w.owed[c], w.hub.seqNo, s.now, cfg.clientIdleMs, c in s.congested);
    HeartbeatAt(cfg, w, s, c);
  }

  lemma QuietFaithful(cfg: Config, w: World, s: Step, c: nat)
    requires FaithfulTo(w, c)
    requires s.Connect? || s.Pong? || s.Disconnect? || s.CloseEvent? || s.FireTimer?
             || (s.ResumeCommand? && s.client != c)
    ensures FaithfulTo(Next(cfg, w, s), c)
  {
    FaithfulIgnores(w.hub.clients[c], Apply(cfg, w.hub, s).clients[c], w.owed[c], w.hub.seqNo);
  }

  lemma StepFaithful(cfg: Config, w: World, s: Step, c: nat)
    requires FaithfulTo(w, c) && !(s.ResumeCommand? && s.client == c)
    ensures FaithfulTo(Next(cfg, w, s), c)
  {
    if s.Broadcast? {
      BroadcastFaithful(cfg, w, s, c);
    } else if s.Heartbeat? {
      HeartbeatFaithful(cfg, w, s, c);
    } else if s.SubscribeCommand? && Enabled(w.hub, s) {
      SubscribeFaithful(cfg, w, s, c);
    } else if s.Advance? && Enabled(w.hub, s) {
      AdvanceFaithful(cfg, w, s, c);
    } else if s.UnsubscribeCommand? && Enabled(w.hub, s) {
      UnsubscribeFaithful(cfg, w, s, c);
    } else if !s.SubscribeCommand? && !s.Advance? && !s.UnsubscribeCommand? {
      QuietFaithful(cfg, w, s, c);
    }
  }

  lemma {:induction false} RunFaithful(cfg: Config, steps: seq<Step>, c: nat)
    requires c < |Run(cfg, steps).hub.clients| && NoResume(steps, c)
    ensures FaithfulTo(Run(cfg, steps), c)
    decreases |steps|
  {
    if steps != [] {
      var before := steps[..|steps| - 1];
      var s := steps[|steps| - 1];
      var w := Run(cfg, before);
      ApplyKeepsClientCount(cfg, w.hub, s);
      if c < |w.hub.clients| {
        RunFaithful(cfg, before, c);
        StepFaithful(cfg, w, s, c);
      } else {
        FaithfulAtStart(s.now, w.hub.seqNo);
      }
    }
  }

  // ---------- the same in quantified form ----------

  /** Exactly one interval contains k. */
  ghost predicate CoveredOnce(spans: seq<Span>, k: nat) {
    exists i :: 0 <= i < |spans| && Covers(spans[i], k)
                && forall j :: 0 <= j < |spans| && j != i ==> !Covers(spans[j], k)
  }

  /** Strictly increasing, pairwise disjoint intervals within 1..n. */
  ghost predicate Increasing(spans: seq<Span>, n: nat) {
    && (forall i :: 0 <= i < |spans| ==> 1 <= spans[i].lo <= spans[i].hi <= n)
    && (forall i, j :: 0 <= i < j < |spans| ==> spans[i].hi < spans[j].lo)
  }

  lemma {:induction false} OrderedIncreases(spans: seq<Span>, n: nat)
    requires Ordered(spans, n)
    ensures Increasing(spans, n)
    decreases |spans|
  {
    if spans != [] {
      var init := spans[..|spans| - 1];
      OrderedIncreases(init, spans[|spans| - 1].lo - 1);
      assert forall i :: 0 <= i < |init| ==> spans[i] == init[i];
    }
  }

  lemma {:induction false} CoveredIndex(spans: seq<Span>, k: nat)
    ensures Covered(spans, k) <==> exists i :: 0 <= i < |spans| && Covers(spans[i], k)
    decreases |spans|
  {
    if spans != [] {
      var init := spans[..|spans| - 1];
      CoveredIndex(init, k);
      if i :| 0 <= i < |init| && Covers(init[i], k) {
        assert Covers(spans[i], k);
      }
    }
  }

  lemma {:induction false} AllCoveredEach(spans: seq<Span>, owed: seq<Sequenced>)
    ensures AllCovered(spans, owed) <==> forall o :: o in owed ==> Covered(spans, o.seqNo)
    decreases |owed|
  {
    if owed != [] {
      AllCoveredEach(spans, owed[..|owed| - 1]);
      assert owed == owed[..|owed| - 1] + [owed[|owed| - 1]];
    }
  }

  lemma {:induction false} AllHonestEach(sent: seq<Frame>, owed: seq<Sequenced>)
    ensures AllHonest(sent, owed) <==> forall f :: f in sent ==> Honest(f, owed)
    decreases |sent|
  {
    if sent != [] {
      AllHonestEach(sent[..|sent| - 1], owed);
      assert sent == sent[..|sent| - 1] + [sent[|sent| - 1]];
    }
  }

  lemma CoveredOnceWhenOrdered(spans: seq<Span>, n: nat, k: nat)
    requires Ordered(spans, n) && Covered(spans, k)
    ensures CoveredOnce(spans, k)
  {
    OrderedIncreases(spans, n);
    CoveredIndex(spans, k);
    var i :| 0 <= i < |spans| && Covers(spans[i], k);
    forall j | 0 <= j < |spans| && j != i ensures !Covers(spans[j], k) {
      assert j < i ==> spans[j].hi < spans[i].lo;
    }
  }

  /** Main result.  In every run in which client c does not resume, whatever the other clients do
      and however congestion, heartbeats, timers and subscription changes interleave: each event
      broadcast while it matched is accounted for exactly once, by its own event frame, by a gap
      frame already sent, or by the pending gap; delivered numbers strictly increase, gaps are
      disjoint and increasing, and no delivered number lies in a gap. */
  lemma DeliveredOrGapped(cfg: Config, steps: seq<Step>, c: nat)
    requires c < |Run(cfg, steps).hub.clients| && NoResume(steps, c)
    ensures var w := Run(cfg, steps);
            var client := w.hub.clients[c];
            && (forall o :: o in w.owed[c] ==> CoveredOnce(Accounted(client), o.seqNo))
            && Increasing(Accounted(client), w.hub.seqNo)
            && (forall f :: f in client.sent ==> Honest(f, w.owed[c]))
            && client.lastSeq == LastDelivered(client.sent)
  {
    RunFaithful(cfg, steps, c);
    var w := Run(cfg, steps);
    var client := w.hub.clients[c];
    OrderedIncreases(Accounted(client), w.hub.seqNo);
    AllCoveredEach(Accounted(client), w.owed[c]);
    AllHonestEach(client.sent, w.owed[c]);
    forall o | o in w.owed[c] ensures CoveredOnce(Accounted(client), o.seqNo) {
      CoveredOnceWhenOrdered(Accounted(client), w.hub.seqNo, o.seqNo);
    }
  }

  // ---------- nothing is withheld without cause ----------

  /** The events handed to the socket, in order. */
  function Delivered(sent: seq<Frame>): seq<Sequenced>
    decreases |sent|
  {
    if sent == [] then [] else
    var f := sent[|sent| - 1];
    Delivered(sent[..|sent| - 1]) + if f.EventFrame? then [Sequenced(f.seqNo, f.event)] else []
  }

  predicate NeverCongested(steps: seq<Step>, c: nat) {
    forall i :: 0 <= i < |steps| ==> !(steps[i].Broadcast? && c in steps[i].congested)
  }

  lemma DeliveredAppends(c: Client, f: Frame)
    ensures Delivered(Send(c, f).sent) ==
            Delivered(c.sent) + if f.EventFrame? then [Sequenced(f.seqNo, f.event)] else []
  {
    assert Send(c, f).sent[..|c.sent|] == c.sent;
  }

  ghost predicate AllDelivered(w: World, c: nat) {
    && c < |w.owed| == |w.hub.clients|
    && Delivered(w.hub.clients[c].sent) == w.owed[c] && w.hub.clients[c].gapFrom.None?
  }

  lemma UnsubscribeDeliversNothing(h: Hub, i: nat, ids: seq<string>, c: nat)
    requires i < |h.clients| && c < |h.clients| && h.clients[c].gapFrom.None?
    ensures UnsubscribeStep(h, i, ids).clients[c].gapFrom.None?
    ensures Delivered(UnsubscribeStep(h, i, ids).clients[c].sent) == Delivered(h.clients[c].sent)
  {
    DropSubsKeeps(h, i, ids);
    DeliveredAppends(DropSubs(h, i, ids).clients[c], Unsubscribed(ids, h.seqNo));
  }

  lemma AdvanceDeliversNothing(h: Hub, i: nat, c: nat)
    requires i < |h.clients| && h.clients[i].job.Some? && c < |h.clients| && h.clients[c].gapFrom.None?
    ensures AdvanceClient(h, i).clients[c].gapFrom.None?
    ensures Delivered(AdvanceClient(h, i).clients[c].sent) == Delivered(h.clients[c].sent)
  {
    DeliveredAppends(h.clients[c], Subscribed(h.clients[i].job.value.ids, h.seqNo));
  }

  /** Apart from broadcasts and its own resumes, no step sends client c an event or marks a gap. */
  lemma OtherStepsDeliverNothing(cfg: Config, h: Hub, s: Step, c: nat)
    requires c < |h.clients| && h.clients[c].gapFrom.None?
    requires !s.Broadcast? && !(s.ResumeCommand? && s.client == c)
    ensures c < |Apply(cfg, h, s).clients|
    ensures Apply(cfg, h, s).clients[c].gapFrom.None?
    ensures Delivered(Apply(cfg, h, s).clients[c].sent) == Delivered(h.clients[c].sent)
  {
    var d := h.clients[c];
    if !Enabled(h, s) {
      return;
    }
    if s.SubscribeCommand? {
      DeliveredAppends(d, SubscriptionLimit);
    } else if s.UnsubscribeCommand? {
      UnsubscribeDeliversNothing(h, s.client, s.ids, c);
    } else if s.Advance? {
      AdvanceDeliversNothing(h, s.client, c);
    }
  }

  lemma StepDeliversAll(cfg: Config, w: World, s: Step, c: nat)
    requires AllDelivered(w, c)
    requires !(s.ResumeCommand? && s.client == c) && !(s.Broadcast? && c in s.congested)
    ensures AllDelivered(Next(cfg, w, s), c)
  {
    if s.Broadcast? {
      BroadcastAt(cfg, w, s, c);
      DeliveredAppends(w.hub.clients[c], EventFrame(w.hub.seqNo + 1, false, s.event));
    } else {
      OtherStepsDeliverNothing(cfg, w.hub, s, c);
      ApplyKeepsClientCount(cfg, w.hub, s);
    }
  }

  /** A client whose socket is never over its limit when an event is broadcast receives every event
      it is owed, in order, once each, and never has a gap pending. */
  lemma {:induction false} UncongestedReceivesAll(cfg: Config, steps: seq<Step>, c: nat)
    requires c < |Run(cfg, steps).hub.clients| && NoResume(steps, c) && NeverCongested(steps, c)
    ensures AllDelivered(Run(cfg, steps), c)
    decreases |steps|
  {
    if steps != [] {
      var before := steps[..|steps| - 1];
      var s := steps[|steps| - 1];
      var w := Run(cfg, before);
      ApplyKeepsClientCount(cfg, w.hub, s);
      if c < |w.hub.clients| {
        UncongestedReceivesAll(cfg, before, c);
        StepDeliversAll(cfg, w, s, c);
      } else {
        DeliveredAppends(Connected(s.now, w.hub.seqNo).(sent := []), Hello(w.hub.seqNo));
        assert [] + [Hello(w.hub.seqNo)] == [Hello(w.hub.seqNo)];
      }
    }
  }

  /** A heartbeat that finds a live client with room in its socket leaves no gap pending, so all it
      is owed is then accounted for by frames it was sent; an idle client is dropped instead. */
  lemma HeartbeatSettles(cfg: Config, w: World, now: int, congested: set<nat>, c: nat)
    requires FaithfulTo(w, c)
    requires w.hub.clients[c].phase == Open && c !in congested
    ensures var was := w.hub.clients[c];
            var d := Apply(cfg, w.hub, Heartbeat(now, congested)).clients[c];
            if now - was.lastPongAt > cfg.clientIdleMs then d == was.(phase := Closing)
            else d.phase == Open && AllCovered(Spans(d.sent), w.owed[c])
  {
    FlushFaithful(w.hub.clients[c], w.owed[c], w.hub.seqNo, w.hub.seqNo);
    var d := FlushGap(w.hub.clients[c], w.hub.seqNo);
    assert Accounted(d) == Spans(d.sent);
  }
}
