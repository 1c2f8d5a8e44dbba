/** The replay ring and the `resume` command over every run: what the ring holds, when a resume is
    refused, what it replays, and when it leaves events unaccounted for. */
module HubResume {
  import opened Collections
  import opened HubProtocol
  import opened HubDelivery

  /** The log with its sequence numbers: the first broadcast is number 1. */
  function Numbered(log: seq<Event>): (r: seq<Sequenced>)
    ensures |r| == |log|
    ensures forall i :: 0 <= i < |log| ==> r[i] == Sequenced(i + 1, log[i])
  {
    seq(|log|, i requires 0 <= i < |log| => Sequenced(i + 1, log[i]))
  }

  ghost predicate RingIsTail(cfg: Config, w: World) {
    w.hub.seqNo == |w.log| && w.hub.ring == LastOf(Numbered(w.log), cfg.replayEvents)
  }

  lemma {:induction false} RingSurvives(h: Hub, i: nat, ids: seq<string>)
    requires i < |h.clients|
    ensures DropSubs(h, i, ids).ring == h.ring && DropSubs(h, i, ids).seqNo == h.seqNo
    decreases |ids|
  {
    if ids != [] {
      RingSurvives(h, i, ids[..|ids| - 1]);
    }
  }

  lemma LastOfPush(items: seq<Sequenced>, item: Sequenced, capacity: nat)
    ensures PushRing(LastOf(items, capacity), item, capacity) == LastOf(items + [item], capacity)
  {
    if |items| >= capacity {
      var n := |items| - capacity;
      assert LastOf(items, capacity) == items[n..];
      assert items[n..] + [item] == (items + [item])[n..];
      assert (items + [item])[n..][1..] == (items + [item])[n + 1..];
    }
  }

  lemma PushKeepsTail(log: seq<Event>, e: Event, capacity: nat)
    ensures PushRing(LastOf(Numbered(log), capacity), Sequenced(|log| + 1, e), capacity) ==
            LastOf(Numbered(log + [e]), capacity)
  {
    assert Numbered(log + [e]) == Numbered(log) + [Sequenced(|log| + 1, e)];
    LastOfPush(Numbered(log), Sequenced(|log| + 1, e), capacity);
  }

  lemma StepKeepsTail(cfg: Config, w: World, s: Step)
    requires |w.owed| == |w.hub.clients| && RingIsTail(cfg, w)
    ensures RingIsTail(cfg, Next(cfg, w, s))
  {
    if s.Broadcast? {
      PushKeepsTail(w.log, s.event, cfg.replayEvents);
    } else if s.UnsubscribeCommand? && Enabled(w.hub, s) {
      RingSurvives(w.hub, s.client, s.ids);
    }
  }

  lemma {:induction false} AlwaysTail(cfg: Config, steps: seq<Step>)
    ensures RingIsTail(cfg, Run(cfg, steps))
    decreases |steps|
  {
    if steps != [] {
      AlwaysTail(cfg, steps[..|steps| - 1]);
      StepKeepsTail(cfg, Run(cfg, steps[..|steps| - 1]), steps[|steps| - 1]);
    }
  }

  /** The ring's contents, entry by entry. */
  ghost predicate HoldsLast(w: World, kept: nat) {
    && w.hub.seqNo == |w.log| && |w.hub.ring| == kept <= |w.log|
    && forall i :: 0 <= i < kept ==>
         w.hub.ring[i] == Sequenced(|w.log| - kept + i + 1, w.log[|w.log| - kept + i])
  }

  lemma TailByEntry(cfg: Config, w: World)
    requires RingIsTail(cfg, w)
    ensures HoldsLast(w, if |w.log| <= cfg.replayEvents then |w.log| else cfg.replayEvents)
  {
  }

  /** In every reachable state the ring holds exactly the last min(seq, capacity) events broadcast,
      with their own, contiguous sequence numbers. */
  lemma RingHoldsTail(cfg: Config, steps: seq<Step>)
    ensures var w := Run(cfg, steps);
            HoldsLast(w, if |w.log| <= cfg.replayEvents then |w.log| else cfg.replayEvents)
  {
    AlwaysTail(cfg, steps);
    TailByEntry(cfg, Run(cfg, steps));
  }

  /** What a client would be owed out of the items numbered above `from`. */
  function Due(c: Client, items: seq<Sequenced>, from: nat): seq<Sequenced> {
    if items == [] then []
    else (if items[0].seqNo > from && Matches(c, items[0].event) then [items[0]] else []) + Due(c, items[1..], from)
  }

  /** Position of the first blocked item, or the length when none is. */
  function FirstBlocked(due: seq<Sequenced>, blocked: set<nat>): (k: nat)
    ensures k <= |due|
    ensures k < |due| ==> due[k].seqNo in blocked
    ensures forall i :: 0 <= i < k ==> due[i].seqNo !in blocked
  {
    if due == [] || due[0].seqNo in blocked then 0 else 1 + FirstBlocked(due[1..], blocked)
  }

  function ReplayFrames(due: seq<Sequenced>): (r: seq<Frame>)
    ensures |r| == |due|
    ensures forall i :: 0 <= i < |due| ==> r[i] == EventFrame(due[i].seqNo, true, due[i].event)
  {
    seq(|due|, i requires 0 <= i < |due| => EventFrame(due[i].seqNo, true, due[i].event))
  }

  /** Flushing before the first delivery is all the flushing there is. */
  function AfterDeliveries(c: Client, due: seq<Sequenced>, current: nat): Client {
    if due == [] then c
    else
      var d := FlushGap(c, current);
      d.(sent := d.sent + ReplayFrames(due), lastSeq := Some(due[|due| - 1].seqNo))
  }

  lemma DueInvariant(c: Client, d: Client, items: seq<Sequenced>, from: nat)
    requires c.subs == d.subs
    ensures Due(c, items, from) == Due(d, items, from)
  {
  }

  lemma DeliverThenRest(c: Client, item: Sequenced, rest: seq<Sequenced>, current: nat)
    ensures AfterDeliveries(c, [item] + rest, current) ==
            AfterDeliveries(Deliver(c, item, true, current), rest, current)
  {
    var all := [item] + rest;
    var f := EventFrame(item.seqNo, true, item.event);
    var c1 := Deliver(c, item, true, current);
    assert ReplayFrames(all) == [f] + ReplayFrames(rest);
    assert FlushGap(c, current).sent + ([f] + ReplayFrames(rest)) == c1.sent + ReplayFrames(rest);
    if rest == [] {
      assert c1.sent + ReplayFrames(rest) == c1.sent;
    } else {
      assert all[|all| - 1] == rest[|rest| - 1];
    }
  }

  function ReplayResult(c: Client, due: seq<Sequenced>, blocked: set<nat>, current: nat, count: nat): (Client, nat) {
    var k := FirstBlocked(due, blocked);
    var d := AfterDeliveries(c, due[..k], current);
    (if k < |due| then MarkGap(d, due[k].seqNo) else d, count + k)
  }

  lemma ReplayResultStep(c: Client, item: Sequenced, rest: seq<Sequenced>, blocked: set<nat>, current: nat, count: nat)
    ensures ReplayResult(c, [item] + rest, blocked, current, count) ==
            if item.seqNo in blocked then (MarkGap(c, item.seqNo), count)
            else ReplayResult(Deliver(c, item, true, current), rest, blocked, current, count + 1)
  {
    var due := [item] + rest;
    assert due[1..] == rest;
    if item.seqNo !in blocked {
      var k := FirstBlocked(rest, blocked);
      assert due[..k + 1] == [item] + rest[..k];
      DeliverThenRest(c, item, rest[..k], current);
    }
  }

  lemma {:induction false} ReplayClosedForm(c: Client, items: seq<Sequenced>, from: nat, blocked: set<nat>,
                                            current: nat, count: nat)
    ensures Replay(c, items, from, blocked, current, count) ==
            ReplayResult(c, Due(c, items, from), blocked, current, count)
    decreases |items|
  {
    if items != [] {
      var item, rest := items[0], Due(c, items[1..], from);
      if item.seqNo <= from || !Matches(c, item.event) {
        ReplayClosedForm(c, items[1..], from, blocked, current, count);
        assert Due(c, items, from) == [] + rest == rest;
      } else {
        assert Due(c, items, from) == [item] + rest;
        ReplayResultStep(c, item, rest, blocked, current, count);
        if item.seqNo !in blocked {
          var c1 := Deliver(c, item, true, current);
          ReplayClosedForm(c1, items[1..], from, blocked, current, count + 1);
          DueInvariant(c1, c, items[1..], from);
        }
      }
    }
  }

  /** Nothing numbered above `from` and matching was overwritten, so the ring offers it all. */
  lemma {:induction false} DueFromTail(c: Client, items: seq<Sequenced>, n: nat, from: nat)
    requires n <= |items|
    requires forall i :: 0 <= i < n ==> items[i].seqNo <= from
    ensures Due(c, items, from) == Due(c, items[n..], from)
    decreases n
  {
    if n > 0 {
      DueFromTail(c, items[1..], n - 1, from);
      assert items[1..][n - 1..] == items[n..];
    }
  }

  /** Due lists exactly the matching items numbered above `from`, in their order. */
  lemma {:induction false} DueMembers(c: Client, items: seq<Sequenced>, from: nat, x: Sequenced)
    ensures x in Due(c, items, from) <==> x in items && x.seqNo > from && Matches(c, x.event)
    decreases |items|
  {
    if items != [] {
      DueMembers(c, items[1..], from, x);
    }
  }

  predicate Ascending(items: seq<Sequenced>) {
    forall i, j :: 0 <= i < j < |items| ==> items[i].seqNo < items[j].seqNo
  }

  lemma {:induction false} DueAscends(c: Client, items: seq<Sequenced>, from: nat)
    requires Ascending(items)
    ensures Ascending(Due(c, items, from))
    decreases |items|
  {
    if items != [] {
      var rest := Due(c, items[1..], from);
      DueAscends(c, items[1..], from);
      forall i | 0 <= i < |rest| ensures items[0].seqNo < rest[i].seqNo {
        DueMembers(c, items[1..], from, rest[i]);
      }
    }
  }

  /** Event from+1 was broadcast and has left the ring. */
  ghost predicate Overwritten(w: World, from: nat) {
    from + 1 <= |w.log| && Sequenced(from + 1, w.log[from]) !in w.hub.ring
  }

  /** The client after a resume that is not refused. */
  function Resumption(c: Client, log: seq<Event>, from: nat, blocked: set<nat>): Client {
    var (d, k) := ReplayResult(c, Due(c, Numbered(log), from), blocked, |log|, 0);
    Send(d, Resumed(from, k, |log|))
  }

  /** The client after a resume, in terms of the log. */
  ghost function ResumeOutcome(w: World, c: Client, from: nat, blocked: set<nat>): Client {
    if Overwritten(w, from) && |w.log| >= |w.hub.ring| then
      Send(c, ResumeUnavailable(from, |w.log| - |w.hub.ring| + 1, |w.log|))
    else Resumption(c, w.log, from, blocked)
  }

  lemma OverwrittenIff(w: World, from: nat)
    requires HoldsLast(w, |w.hub.ring|)
    ensures Overwritten(w, from) <==> from < |w.log| - |w.hub.ring|
  {
    var lost := |w.log| - |w.hub.ring|;
    if lost <= from < |w.log| {
      assert w.hub.ring[from - lost] == Sequenced(from + 1, w.log[from]);
    }
  }

  /** The ring offers all of the log that is due. */
  lemma DueInRing(cfg: Config, w: World, c: Client, from: nat)
    requires RingIsTail(cfg, w) && !Overwritten(w, from)
    ensures Due(c, w.hub.ring, from) == Due(c, Numbered(w.log), from)
  {
    TailByEntry(cfg, w);
    OverwrittenIff(w, from);
    var lost := |w.log| - |w.hub.ring|;
    assert w.hub.ring == Numbered(w.log)[lost..];
    DueFromTail(c, Numbered(w.log), lost, from);
  }

  lemma RefusedInTail(w: World, c: Client, from: nat, blocked: set<nat>)
    requires HoldsLast(w, |w.hub.ring|) && w.hub.ring != [] && from <= MAX_SAFE_INTEGER
    requires Overwritten(w, from)
    ensures Resume(c, w.hub.ring, from, blocked, w.hub.seqNo) == ResumeOutcome(w, c, from, blocked)
  {
    OverwrittenIff(w, from);
    assert w.hub.ring[0].seqNo == |w.log| - |w.hub.ring| + 1;
  }

  lemma GrantedInTail(w: World, c: Client, from: nat, blocked: set<nat>)
    requires HoldsLast(w, |w.hub.ring|) && from <= MAX_SAFE_INTEGER && !Overwritten(w, from)
    requires Due(c, w.hub.ring, from) == Due(c, Numbered(w.log), from)
    ensures Resume(c, w.hub.ring, from, blocked, w.hub.seqNo) == ResumeOutcome(w, c, from, blocked)
  {
    OverwrittenIff(w, from);
    assert w.hub.ring != [] ==> w.hub.ring[0].seqNo == |w.log| - |w.hub.ring| + 1;
    ReplayClosedForm(c, w.hub.ring, from, blocked, |w.log|, 0);
  }

  lemma ResumeInTail(cfg: Config, w: World, c: Client, from: nat, blocked: set<nat>)
    requires RingIsTail(cfg, w) && from <= MAX_SAFE_INTEGER && cfg.replayEvents >= 1
    ensures Resume(c, w.hub.ring, from, blocked, w.hub.seqNo) == ResumeOutcome(w, c, from, blocked)
  {
    TailByEntry(cfg, w);
    if Overwritten(w, from) {
      OverwrittenIff(w, from);
      RefusedInTail(w, c, from, blocked);
    } else {
      DueInRing(cfg, w, c, from);
      GrantedInTail(w, c, from, blocked);
    }
  }

  /** Main result.  In every reachable state, `resume(fromSeq)` is refused exactly when event
      fromSeq+1 was broadcast and has left the ring, and then it names the oldest number kept.
      Otherwise it announces a pending gap if it delivers anything, replays in ascending order the
      matching events of the whole log numbered above fromSeq, up to the first one that finds the
      socket over its limit, marks a gap at that one, and reports how many it replayed. */
  lemma ResumeIsExact(cfg: Config, steps: seq<Step>, c: nat, from: nat, blocked: set<nat>)
    requires cfg.replayEvents >= 1 && from <= MAX_SAFE_INTEGER
    requires Enabled(Run(cfg, steps).hub, ResumeCommand(c, from, blocked))
    ensures var w := Run(cfg, steps);
            Apply(cfg, w.hub, ResumeCommand(c, from, blocked)).clients[c] ==
            ResumeOutcome(w, w.hub.clients[c], from, blocked)
  {
    AlwaysTail(cfg, steps);
    ResumeInTail(cfg, Run(cfg, steps), Run(cfg, steps).hub.clients[c], from, blocked);
  }

  // ---------- what a resume leaves unaccounted for ----------

  /** The frames that a command added, and the pending gap it left, account for these intervals. */
  function Added(before: Client, after: Client): seq<Span> {
    (if |before.sent| <= |after.sent| then Spans(after.sent[|before.sent|..]) else []) + PendingSpan(after)
  }

  ghost predicate CoversAll(spans: seq<Span>, due: seq<Sequenced>) {
    forall x :: x in due ==> Covered(spans, x.seqNo)
  }

  function PointSpans(due: seq<Sequenced>): (r: seq<Span>)
    ensures |r| == |due|
    ensures forall i :: 0 <= i < |due| ==> r[i] == Span(due[i].seqNo, due[i].seqNo)
  {
    seq(|due|, i requires 0 <= i < |due| => Span(due[i].seqNo, due[i].seqNo))
  }

  lemma {:induction false} ReplaySpans(due: seq<Sequenced>)
    ensures Spans(ReplayFrames(due)) == PointSpans(due)
    decreases |due|
  {
    if due != [] {
      var init := due[..|due| - 1];
      ReplaySpans(init);
      assert ReplayFrames(due)[..|due| - 1] == ReplayFrames(init);
    }
  }

  lemma {:induction false} SpansNext(sent: seq<Frame>, f: Frame)
    ensures Spans(sent + [f]) == Spans(sent) + SpanOf(f)
  {
    assert (sent + [f])[..|sent|] == sent;
  }

  lemma {:induction false} SpansConcatNext(a: seq<Frame>, b: seq<Frame>)
    requires b != [] && Spans(a + b[..|b| - 1]) == Spans(a) + Spans(b[..|b| - 1])
    ensures Spans(a + b) == Spans(a) + Spans(b)
  {
    var init, f := b[..|b| - 1], b[|b| - 1];
    assert b == init + [f];
    SpansNext(a + init, f);
    SpansNext(init, f);
    ConcatAssociates(a, init, [f]);
    ConcatAssociates(Spans(a), Spans(init), SpanOf(f));
  }

  lemma {:induction false} SpansConcat(a: seq<Frame>, b: seq<Frame>)
    ensures Spans(a + b) == Spans(a) + Spans(b)
    decreases |b|
  {
    if b == [] {
      assert a + b == a;
    } else {
      SpansConcat(a, b[..|b| - 1]);
      SpansConcatNext(a, b);
    }
  }

  /** The intervals a resume adds, in closed form: the old pending gap if anything was delivered, the
      events delivered, and the pending gap it leaves. */
  function ResumeSpans(c: Client, due: seq<Sequenced>, k: nat): seq<Span>
    requires k <= |due|
  {
    (if k > 0 then PendingSpan(c) else [])
    + PointSpans(due[..k])
    + (if k < |due| then [Span(if k == 0 && c.gapFrom.Some? then c.gapFrom.value else due[k].seqNo, due[k].seqNo)]
       else if k == 0 then PendingSpan(c) else [])
  }

  lemma FlushSpans(c: Client, current: nat)
    requires c.gapFrom.Some? <==> c.gapTo.Some?
    ensures |c.sent| <= |FlushGap(c, current).sent|
    ensures c.sent == FlushGap(c, current).sent[..|c.sent|]
    ensures Spans(FlushGap(c, current).sent[|c.sent|..]) == PendingSpan(c)
  {
    var f := FlushGap(c, current).sent[|c.sent|..];
    if c.gapFrom.Some? {
      assert f == [Gap(c.gapFrom.value, c.gapTo, c.gapTo.value - c.gapFrom.value + 1, current)];
      assert f[..0] == [];
    }
  }

  lemma DeliverySpans(c: Client, due: seq<Sequenced>, current: nat)
    requires due != [] && (c.gapFrom.Some? <==> c.gapTo.Some?)
    ensures var sent := AfterDeliveries(c, due, current).sent;
            && |c.sent| <= |sent|
            && Spans(sent[|c.sent|..]) == PendingSpan(c) + Spans(ReplayFrames(due))
    ensures AfterDeliveries(c, due, current).gapFrom.None? && AfterDeliveries(c, due, current).gapTo.None?
  {
    FlushSpans(c, current);
    var flushed := FlushGap(c, current).sent[|c.sent|..];
    assert AfterDeliveries(c, due, current).sent[|c.sent|..] == flushed + ReplayFrames(due);
    SpansConcat(flushed, ReplayFrames(due));
  }

  lemma ReportAddsNothing(before: Client, d: Client, f: Frame)
    requires |before.sent| <= |d.sent| && SpanOf(f) == []
    ensures Added(before, Send(d, f)) == Added(before, d)
  {
    assert Send(d, f).sent[|before.sent|..] == d.sent[|before.sent|..] + [f];
    SpansConcat(d.sent[|before.sent|..], [f]);
    assert [f][..0] == [];
  }

  lemma StoppedAtOnce(c: Client, due: seq<Sequenced>)
    requires c.gapFrom.Some? <==> c.gapTo.Some?
    ensures var d := if due == [] then c else MarkGap(c, due[0].seqNo);
            Added(c, d) == ResumeSpans(c, due, 0)
  {
    assert c.sent[|c.sent|..] == [];
  }

  lemma MarkAdds(before: Client, a: Client, n: nat)
    requires |before.sent| <= |a.sent| && a.gapFrom.None? && a.gapTo.None?
    ensures Added(before, a) == Spans(a.sent[|before.sent|..])
    ensures Added(before, MarkGap(a, n)) == Spans(a.sent[|before.sent|..]) + [Span(n, n)]
  {
  }

  lemma StoppedLater(c: Client, due: seq<Sequenced>, k: nat, current: nat)
    requires 0 < k <= |due| && (c.gapFrom.Some? <==> c.gapTo.Some?)
    ensures var a := AfterDeliveries(c, due[..k], current);
            var d := if k < |due| then MarkGap(a, due[k].seqNo) else a;
            |c.sent| <= |d.sent| && Added(c, d) == ResumeSpans(c, due, k)
  {
    var first := due[..k];
    DeliverySpans(c, first, current);
    ReplaySpans(first);
    if k < |due| {
      MarkAdds(c, AfterDeliveries(c, first, current), due[k].seqNo);
    } else {
      MarkAdds(c, AfterDeliveries(c, first, current), 0);
    }
  }

  lemma ReplaySpansAdded(c: Client, due: seq<Sequenced>, blocked: set<nat>, current: nat)
    requires c.gapFrom.Some? <==> c.gapTo.Some?
    ensures var d := ReplayResult(c, due, blocked, current, 0).0;
            |c.sent| <= |d.sent| && Added(c, d) == ResumeSpans(c, due, FirstBlocked(due, blocked))
  {
    var k := FirstBlocked(due, blocked);
    if k == 0 {
      StoppedAtOnce(c, due);
    } else {
      StoppedLater(c, due, k, current);
    }
  }

  lemma ResumptionSpans(c: Client, log: seq<Event>, from: nat, blocked: set<nat>)
    requires c.gapFrom.Some? <==> c.gapTo.Some?
    ensures var due := Due(c, Numbered(log), from);
            Added(c, Resumption(c, log, from, blocked)) == ResumeSpans(c, due, FirstBlocked(due, blocked))
  {
    var due := Due(c, Numbered(log), from);
    ReplaySpansAdded(c, due, blocked, |log|);
    var (d, k) := ReplayResult(c, due, blocked, |log|, 0);
    ReportAddsNothing(c, d, Resumed(from, k, |log|));
  }

  /** The guard under which a resume that stops at due[k] still accounts for all that is due:
      it did not stop, or it stopped at the last event and its gap does not begin beyond it, or the
      gap pending before was announced by a delivery and reaches over the rest. */
  predicate Reaches(c: Client, due: seq<Sequenced>, k: nat)
    requires k <= |due| && (c.gapFrom.Some? <==> c.gapTo.Some?)
  {
    || k == |due|
    || (k == |due| - 1 && (k > 0 || c.gapFrom.None? || c.gapFrom.value <= due[k].seqNo))
    || (0 < k < |due| - 1 && c.gapFrom.Some? && c.gapFrom.value <= due[k + 1].seqNo
        && due[|due| - 1].seqNo <= c.gapTo.value)
  }

  lemma ReachesCovers(c: Client, due: seq<Sequenced>, k: nat)
    requires k <= |due| && (c.gapFrom.Some? <==> c.gapTo.Some?)
    requires Ascending(due)
    requires Reaches(c, due, k)
    ensures CoversAll(ResumeSpans(c, due, k), due)
  {
    var spans := ResumeSpans(c, due, k);
    var p := if k > 0 then |PendingSpan(c)| else 0;
    forall i | 0 <= i < |due| ensures Covered(spans, due[i].seqNo) {
      CoveredIndex(spans, due[i].seqNo);
      if i <= k {
        assert Covers(spans[p + i], due[i].seqNo);
      } else {
        assert Covers(spans[0], due[i].seqNo);
      }
    }
  }

  /** Where an interval that contains a due event after the stop must come from. */
  lemma BeyondStopCover(c: Client, due: seq<Sequenced>, k: nat, x: nat)
    requires k < x < |due| && (c.gapFrom.Some? <==> c.gapTo.Some?)
    requires Ascending(due)
    requires Covered(ResumeSpans(c, due, k), due[x].seqNo)
    ensures k > 0 && c.gapFrom.Some? && c.gapFrom.value <= due[x].seqNo <= c.gapTo.value
  {
    var spans := ResumeSpans(c, due, k);
    CoveredIndex(spans, due[x].seqNo);
    var i :| 0 <= i < |spans| && Covers(spans[i], due[x].seqNo);
  }

  lemma AtStopCover(c: Client, due: seq<Sequenced>)
    requires due != [] && (c.gapFrom.Some? <==> c.gapTo.Some?)
    requires Covered(ResumeSpans(c, due, 0), due[0].seqNo)
    ensures c.gapFrom.None? || c.gapFrom.value <= due[0].seqNo
  {
    var spans := ResumeSpans(c, due, 0);
    CoveredIndex(spans, due[0].seqNo);
  }

  lemma CoversReaches(c: Client, due: seq<Sequenced>, k: nat)
    requires k <= |due| && (c.gapFrom.Some? <==> c.gapTo.Some?)
    requires Ascending(due)
    requires CoversAll(ResumeSpans(c, due, k), due)
    ensures Reaches(c, due, k)
  {
    if k + 1 < |due| {
      BeyondStopCover(c, due, k, k + 1);
      BeyondStopCover(c, due, k, |due| - 1);
    } else if k + 1 == |due| && k == 0 {
      AtStopCover(c, due);
    }
  }

  /** Exactly when a resume accounts for everything it owes. */
  lemma ResumeCoversAllIff(c: Client, log: seq<Event>, from: nat, blocked: set<nat>)
    requires c.gapFrom.Some? <==> c.gapTo.Some?
    ensures var due := Due(c, Numbered(log), from);
            CoversAll(Added(c, Resumption(c, log, from, blocked)), due) <==>
            Reaches(c, due, FirstBlocked(due, blocked))
  {
    var due := Due(c, Numbered(log), from);
    var k := FirstBlocked(due, blocked);
    ResumptionSpans(c, log, from, blocked);
    DueAscends(c, Numbered(log), from);
    if Reaches(c, due, k) {
      ReachesCovers(c, due, k);
    } else if CoversAll(ResumeSpans(c, due, k), due) {
      CoversReaches(c, due, k);
    }
  }

  lemma BeyondStop(c: Client, due: seq<Sequenced>, k: nat, i: nat)
    requires k < i < |due| && c.gapFrom.None? && c.gapTo.None?
    requires Ascending(due)
    ensures !Covered(ResumeSpans(c, due, k), due[i].seqNo)
  {
    if Covered(ResumeSpans(c, due, k), due[i].seqNo) {
      BeyondStopCover(c, due, k, i);
    }
  }

  /** The family of resumes that lose events: stopped at due[k] with more to go and no gap pending,
      every due event after due[k] is neither delivered nor in any gap. */
  lemma CongestedResumeLoses(c: Client, log: seq<Event>, from: nat, blocked: set<nat>, due: seq<Sequenced>, k: nat,
                             i: nat)
    requires c.gapFrom.None? && c.gapTo.None?
    requires due == Due(c, Numbered(log), from) && k == FirstBlocked(due, blocked) && k < i < |due|
    ensures !Covered(Added(c, Resumption(c, log, from, blocked)), due[i].seqNo)
  {
    ResumptionSpans(c, log, from, blocked);
    DueAscends(c, Numbered(log), from);
    BeyondStop(c, due, k, i);
  }

  /** A pending gap that ends before it begins. */
  predicate Inverted(c: Client) {
    c.gapFrom.Some? && c.gapTo.Some? && c.gapTo.value < c.gapFrom.value
  }

  /** Exactly when a resume leaves such a gap: it finds the socket over its limit at the first event due,
      and that event is older than the gap pending before. */
  lemma ResumeInvertsGapIff(c: Client, log: seq<Event>, from: nat, blocked: set<nat>)
    requires (c.gapFrom.Some? <==> c.gapTo.Some?) && !Inverted(c)
    ensures var due := Due(c, Numbered(log), from);
            Inverted(Resumption(c, log, from, blocked)) <==>
            due != [] && due[0].seqNo in blocked && c.gapFrom.Some? && due[0].seqNo < c.gapFrom.value
  {
    var due := Due(c, Numbered(log), from);
    var k := FirstBlocked(due, blocked);
    assert Resumption(c, log, from, blocked).gapFrom == ReplayResult(c, due, blocked, |log|, 0).0.gapFrom;
    if k > 0 {
      assert AfterDeliveries(c, due[..k], |log|).gapFrom.None?;
    }
  }

  /** When it is announced, it claims that no event, or fewer than none, was dropped. */
  lemma InvertedGapClaimsNothing(c: Client, current: nat)
    requires Inverted(c)
    ensures var dropped := c.gapTo.value - c.gapFrom.value + 1;
            dropped <= 0 && FlushGap(c, current).sent == c.sent + [Gap(c.gapFrom.value, c.gapTo, dropped, current)]
  {
  }

  // ---------- a run in which it happens ----------

  /** A hub with one client, which was owed every event broadcast. */
  ghost predicate OneClient(w: World, c: Client, log: seq<Event>) {
    && w.hub.clients == [c] && w.hub.seqNo == |log| && w.log == log
    && w.hub.ring == Numbered(log) && w.owed == [Numbered(log)]
  }

  lemma OneConnects(cfg: Config, now: int)
    ensures OneClient(Next(cfg, START, Connect(now)), Connected(now, 0), [])
  {
    assert Numbered([]) == [];
  }

  lemma OneSubscribes(cfg: Config, w: World, c: Client, log: seq<Event>, id: string)
    requires OneClient(w, c, log) && c.job.None? && c.subs == [] && cfg.maxSubscriptions >= 1
    ensures OneClient(Next(cfg, w, SubscribeCommand(0, [id], Everything)),
                      c.(job := Some(Job([id], 0, false, Everything))), log)
  {
    assert NewIds(c.subs, [id]) == 1;
  }

  lemma OneAdvances(cfg: Config, w: World, c: Client, log: seq<Event>, job: Job)
    requires OneClient(w, c, log) && c.job == Some(job) && c.phase == Open
    requires c.subs == [] || job.next == |job.ids|
    ensures OneClient(Next(cfg, w, Advance(0)),
                      if job.next >= |job.ids| then Send(c, Subscribed(job.ids, |log|)).(job := None)
                      else if !job.awaiting then c.(job := Some(job.(awaiting := true)))
                      else c.(subs := [(job.ids[job.next], job.filter)],
                              job := Some(job.(next := job.next + 1, awaiting := false))), log)
  {
    if job.next < |job.ids| {
      assert Put(c.subs, job.ids[job.next], job.filter) == [(job.ids[job.next], job.filter)];
    }
  }

  lemma OneIsOffered(cfg: Config, w: World, c: Client, log: seq<Event>, e: Event, congested: set<nat>)
    requires OneClient(w, c, log) && |log| < cfg.replayEvents && c.phase == Open && Matches(c, e)
    ensures OneClient(Next(cfg, w, Broadcast(e, congested)),
                      Offer(c, Sequenced(|log| + 1, e), 0 in congested), log + [e])
  {
    assert Numbered(log + [e]) == Numbered(log) + [Sequenced(|log| + 1, e)];
  }

  lemma OneResumes(cfg: Config, w: World, c: Client, log: seq<Event>, blocked: set<nat>)
    requires OneClient(w, c, log) && c.job.None?
    ensures OneClient(Next(cfg, w, ResumeCommand(0, 0, blocked)), Resumption(c, log, 0, blocked), log)
  {
    ReplayClosedForm(c, Numbered(log), 0, blocked, |log|, 0);
    assert w.hub.ring != [] ==> w.hub.ring[0].seqNo == 1;
  }

  lemma {:induction false} RunsOn(cfg: Config, steps: seq<Step>, s: Step, c: Client, log: seq<Event>)
    requires OneClient(Next(cfg, Run(cfg, steps), s), c, log) && NoResume(steps, 0) && !s.ResumeCommand?
    ensures OneClient(Run(cfg, steps + [s]), c, log) && NoResume(steps + [s], 0)
  {
    RunNext(cfg, steps, s);
  }

  /** A client that has just subscribed to everything of one streamer. */
  function Taker(id: string): Client {
    Client(Open, [(id, Everything)], 0, None, None, None, None, [Hello(0), Subscribed([id], 0)])
  }

  lemma {:induction false} TakerStarts(cfg: Config, id: string) returns (steps: seq<Step>)
    requires cfg.maxSubscriptions >= 1
    ensures NoResume(steps, 0)
    ensures OneClient(Run(cfg, steps), Connected(0, 0).(job := Some(Job([id], 0, false, Everything))), [])
  {
    OneConnects(cfg, 0);
    RunsOn(cfg, [], Connect(0), Connected(0, 0), []);
    steps := [] + [Connect(0)];
    var s := SubscribeCommand(0, [id], Everything);
    OneSubscribes(cfg, Run(cfg, steps), Connected(0, 0), [], id);
    RunsOn(cfg, steps, s, Connected(0, 0).(job := Some(Job([id], 0, false, Everything))), []);
    steps := steps + [s];
  }

  lemma {:induction false} TakerAdvances(cfg: Config, id: string, before: seq<Step>, c: Client)
    returns (steps: seq<Step>)
    requires NoResume(before, 0) && OneClient(Run(cfg, before), c, [])
    requires c == Connected(0, 0).(job := Some(Job([id], 0, false, Everything)))
    ensures NoResume(steps, 0) && OneClient(Run(cfg, steps), Taker(id), [])
  {
    var waiting := c.(job := Some(Job([id], 0, true, Everything)));
    OneAdvances(cfg, Run(cfg, before), c, [], c.job.value);
    RunsOn(cfg, before, Advance(0), waiting, []);
    steps := before + [Advance(0)];
    var listed := c.(subs := [(id, Everything)], job := Some(Job([id], 1, false, Everything)));
    OneAdvances(cfg, Run(cfg, steps), waiting, [], waiting.job.value);
    RunsOn(cfg, steps, Advance(0), listed, []);
    steps := steps + [Advance(0)];
    OneAdvances(cfg, Run(cfg, steps), listed, [], listed.job.value);
    assert Send(listed, Subscribed([id], 0)).sent == Taker(id).sent;
    RunsOn(cfg, steps, Advance(0), Taker(id), []);
    steps := steps + [Advance(0)];
  }

  /** The client after one event delivered and one withheld. */
  function Behind(e: Event): Client {
    MarkGap(Deliver(Taker(e.streamerId), Sequenced(1, e), false, 1), 2)
  }

  lemma {:induction false} TakerFallsBehind(cfg: Config, e: Event, before: seq<Step>) returns (steps: seq<Step>)
    requires cfg.replayEvents >= 2
    requires NoResume(before, 0) && OneClient(Run(cfg, before), Taker(e.streamerId), [])
    ensures NoResume(steps, 0) && OneClient(Run(cfg, steps), Behind(e), [e, e])
  {
    var c := Taker(e.streamerId);
    assert Matches(c, e) by { assert IndexOf(c.subs, e.streamerId) == 0; }
    var first := Deliver(c, Sequenced(1, e), false, 1);
    OneIsOffered(cfg, Run(cfg, before), c, [], e, {});
    RunsOn(cfg, before, Broadcast(e, {}), first, [] + [e]);
    steps := before + [Broadcast(e, {})];
    assert Matches(first, e);
    OneIsOffered(cfg, Run(cfg, steps), first, [e], e, {0});
    RunsOn(cfg, steps, Broadcast(e, {0}), Behind(e), [e] + [e]);
    steps := steps + [Broadcast(e, {0})];
  }

  lemma BothAreDue(e: Event)
    ensures Due(Behind(e), Numbered([e, e]), 0) == [Sequenced(1, e), Sequenced(2, e)]
  {
    var c := Behind(e);
    var first, second := Sequenced(1, e), Sequenced(2, e);
    assert Matches(c, e) by { assert IndexOf(c.subs, e.streamerId) == 0; }
    assert Numbered([e, e]) == [first, second];
    assert [first, second][1..] == [second];
    assert [second][1..] == [];
    assert Due(c, [second], 0) == [second];
  }

  lemma {:induction false} ThirdFrameTells(f: Frame, g: Frame, told: Frame)
    requires SpanOf(f) == [] && SpanOf(g) == []
    ensures Spans([f] + [g] + [told]) == SpanOf(told)
  {
    SpansNext([], f);
    assert [] + [f] == [f];
    assert Spans([f]) == [];
    SpansNext([f], g);
    assert Spans([f] + [g]) == [];
    SpansNext([f] + [g], told);
    assert [] + SpanOf(told) == SpanOf(told);
  }

  lemma BehindWasToldOne(e: Event)
    ensures Spans(Behind(e).sent) == [Span(1, 1)]
  {
    var first := EventFrame(1, false, e);
    ThirdFrameTells(Hello(0), Subscribed([e.streamerId], 0), first);
    assert Behind(e).sent == [Hello(0)] + [Subscribed([e.streamerId], 0)] + [first];
  }

  lemma BehindResumes(e: Event)
    ensures Resumption(Behind(e), [e, e], 0, {1}) == Send(MarkGap(Behind(e), 1), Resumed(0, 0, 2))
  {
    BothAreDue(e);
    assert FirstBlocked([Sequenced(1, e), Sequenced(2, e)], {1}) == 0;
  }

  /** What the client has been told after it resumes from 0 and is found over its limit at event 1. */
  lemma ToldTooLittle(e: Event)
    ensures var after := Resumption(Behind(e), [e, e], 0, {1});
            Inverted(after) && !Covered(Accounted(after), 2)
  {
    BehindResumes(e);
    BehindWasToldOne(e);
    SpansNext(Behind(e).sent, Resumed(0, 0, 2));
    var told := Accounted(Resumption(Behind(e), [e, e], 0, {1}));
    assert told == [Span(1, 1), Span(2, 1)];
    CoveredIndex(told, 2);
  }

  /** A run that loses an event: the client is sent event 1, misses event 2 to congestion, resumes from 0
      and is found over its limit again.  It was owed event 2, and nothing sent or pending speaks of it. */
  lemma {:induction false} ResumeLosesOwedEvent(cfg: Config, e: Event) returns (steps: seq<Step>)
    requires cfg.replayEvents >= 2 && cfg.maxSubscriptions >= 1
    ensures NoResume(steps, 0) && Enabled(Run(cfg, steps).hub, ResumeCommand(0, 0, {1}))
    ensures var w := Run(cfg, steps + [ResumeCommand(0, 0, {1})]);
            && |w.owed| == |w.hub.clients| == 1 && Sequenced(2, e) in w.owed[0]
            && Inverted(w.hub.clients[0]) && !Covered(Accounted(w.hub.clients[0]), 2)
  {
    steps := TakerStarts(cfg, e.streamerId);
    steps := TakerAdvances(cfg, e.streamerId, steps, Run(cfg, steps).hub.clients[0]);
    steps := TakerFallsBehind(cfg, e, steps);
    OneResumes(cfg, Run(cfg, steps), Behind(e), [e, e], {1});
    RunNext(cfg, steps, ResumeCommand(0, 0, {1}));
    ToldTooLittle(e);
    assert Numbered([e, e])[1] == Sequenced(2, e);
  }
}
