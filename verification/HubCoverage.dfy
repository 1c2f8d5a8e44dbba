/** Which resumes lose an owed event, and the account over runs with every other resume in them.  `HubDelivery`
    shows that without resumes each owed event is accounted for exactly once; a resume may account for events
    again, so here it is at least once. */
module HubCoverage {
  import opened Collections
  import opened HubProtocol
  import opened HubDelivery
  import opened HubResume

  // ---------- one number ----------

  lemma {:induction false} CoveredConcat(a: seq<Span>, b: seq<Span>, k: nat)
    ensures Covered(a + b, k) <==> Covered(a, k) || Covered(b, k)
    decreases |b|
  {
    if b == [] {
      assert a + b == a;
    } else {
      var init := b[..|b| - 1];
      CoveredConcat(a, init, k);
      assert (a + b)[..|a + b| - 1] == a + init;
    }
  }

  lemma CoveredOne(s: Span, k: nat)
    ensures Covered([s], k) <==> Covers(s, k)
  {
    assert [s][..0] == [];
  }

  lemma AccountedCovers(c: Client, k: nat)
    ensures Covered(Accounted(c), k) <==> Covered(Spans(c.sent), k) || Covered(PendingSpan(c), k)
  {
    CoveredConcat(Spans(c.sent), PendingSpan(c), k);
  }

  /** Both ends of the pending gap are set or neither is, and neither lies beyond n. */
  predicate Paired(c: Client, n: nat) {
    && (c.gapFrom.Some? <==> c.gapTo.Some?)
    && (c.gapFrom.Some? ==> c.gapFrom.value <= n && c.gapTo.value <= n)
  }

  /** What the first client accounts for, the second does too. */
  predicate Remembers(c: Client, d: Client, k: nat) {
    Covered(Accounted(c), k) ==> Covered(Accounted(d), k)
  }

  lemma MarkRemembers(c: Client, n: nat, m: nat, k: nat)
    requires Paired(c, n) && n < m
    ensures Remembers(c, MarkGap(c, m), k) && Covered(Accounted(MarkGap(c, m)), m) && Paired(MarkGap(c, m), m)
  {
    var d := MarkGap(c, m);
    var gap := Span(d.gapFrom.value, m);
    assert PendingSpan(d) == [gap];
    AccountedCovers(c, k);
    AccountedCovers(d, k);
    AccountedCovers(d, m);
    CoveredOne(gap, k);
    CoveredOne(gap, m);
    if c.gapFrom.Some? {
      CoveredOne(Span(c.gapFrom.value, c.gapTo.value), k);
    }
  }

  lemma DeliverRemembers(c: Client, n: nat, item: Sequenced, replayed: bool, current: nat, k: nat)
    requires Paired(c, n)
    ensures var d := Deliver(c, item, replayed, current);
            Remembers(c, d, k) && Covered(Accounted(d), item.seqNo) && d.gapFrom.None? && d.gapTo.None?
  {
    var f, d := FlushGap(c, current), Deliver(c, item, replayed, current);
    var told := [Span(item.seqNo, item.seqNo)];
    FlushAccounts(c, current);
    SpansNext(f.sent, EventFrame(item.seqNo, replayed, item.event));
    assert Accounted(f) == Spans(f.sent);
    assert Accounted(d) == Spans(f.sent) + told;
    CoveredConcat(Spans(f.sent), told, k);
    CoveredConcat(Spans(f.sent), told, item.seqNo);
    CoveredOne(told[0], item.seqNo);
  }

  lemma OfferRemembers(c: Client, n: nat, item: Sequenced, congested: bool, k: nat)
    requires Paired(c, n) && n < item.seqNo
    ensures var d := Offer(c, item, congested);
            && Remembers(c, d, k) && Paired(d, item.seqNo)
            && (Owe(c, item) != [] ==> Covered(Accounted(d), item.seqNo))
  {
    if c.phase != Open || !Matches(c, item.event) {
    } else if congested {
      MarkRemembers(c, n, item.seqNo, k);
    } else {
      DeliverRemembers(c, n, item, false, item.seqNo, k);
    }
  }

  lemma SendRemembers(c: Client, f: Frame)
    requires SpanOf(f) == []
    ensures Accounted(Send(c, f)) == Accounted(c)
  {
    SpansNext(c.sent, f);
    assert Spans(c.sent) + [] == Spans(c.sent);
  }

  // ---------- a resume ----------

  /** The socket is found over its limit at the first event due, and the pending gap reaches beyond it. */
  predicate Shrinks(c: Client, due: seq<Sequenced>, blocked: set<nat>) {
    due != [] && due[0].seqNo in blocked && c.gapTo.Some? && due[0].seqNo < c.gapTo.value
  }

  /** What a replay adds, beside what was sent before. */
  lemma ReplayCovers(c: Client, d: Client, due: seq<Sequenced>, blocked: set<nat>, current: nat, k: nat)
    requires (c.gapFrom.Some? <==> c.gapTo.Some?) && d == ReplayResult(c, due, blocked, current, 0).0
    ensures Covered(Accounted(d), k) <==>
            Covered(Spans(c.sent), k) || Covered(ResumeSpans(c, due, FirstBlocked(due, blocked)), k)
  {
    ReplaySpansAdded(c, due, blocked, current);
    ReplayKeepsSent(c, due, blocked, current);
    var more := d.sent[|c.sent|..];
    assert d.sent == c.sent + more;
    SpansConcat(c.sent, more);
    AccountedCovers(d, k);
    CoveredConcat(Spans(c.sent), Spans(more), k);
    CoveredConcat(Spans(more), PendingSpan(d), k);
  }

  lemma ReplayKeepsSent(c: Client, due: seq<Sequenced>, blocked: set<nat>, current: nat)
    ensures var d := ReplayResult(c, due, blocked, current, 0).0; |c.sent| <= |d.sent| && d.sent[..|c.sent|] == c.sent
  {
  }

  /** The closed form covers the pending gap, unless the gap shrinks. */
  lemma PendingSurvives(c: Client, due: seq<Sequenced>, blocked: set<nat>, k: nat)
    requires (c.gapFrom.Some? <==> c.gapTo.Some?) && !Shrinks(c, due, blocked) && Covered(PendingSpan(c), k)
    ensures Covered(ResumeSpans(c, due, FirstBlocked(due, blocked)), k)
  {
    var i := FirstBlocked(due, blocked);
    var rest := if i < |due|
        then [Span(if i == 0 && c.gapFrom.Some? then c.gapFrom.value else due[i].seqNo, due[i].seqNo)]
                else if i == 0 then PendingSpan(c) else [];
    CoveredOne(Span(c.gapFrom.value, c.gapTo.value), k);
    CoveredConcat(if i > 0 then PendingSpan(c) else [], PointSpans(due[..i]), k);
    CoveredConcat((if i > 0 then PendingSpan(c) else []) + PointSpans(due[..i]), rest, k);
    if i == 0 && due != [] {
      CoveredOne(rest[0], k);
    }
  }

  lemma ReplayRemembers(c: Client, due: seq<Sequenced>, blocked: set<nat>, current: nat, k: nat)
    requires (c.gapFrom.Some? <==> c.gapTo.Some?) && !Shrinks(c, due, blocked)
    ensures Remembers(c, ReplayResult(c, due, blocked, current, 0).0, k)
  {
    AccountedCovers(c, k);
    ReplayCovers(c, ReplayResult(c, due, blocked, current, 0).0, due, blocked, current, k);
    if Covered(PendingSpan(c), k) {
      PendingSurvives(c, due, blocked, k);
    }
  }

  /** The resume is granted, and shrinks the pending gap of its client. */
  predicate Loses(h: Hub, s: Step, c: nat) {
    && c < |h.clients| && s.ResumeCommand? && s.client == c && Enabled(h, s)
    && OldestSeq(h.ring, h.seqNo) - 1 <= s.fromSeq && 0 <= s.fromSeq <= MAX_SAFE_INTEGER
    && Shrinks(h.clients[c], Due(h.clients[c], h.ring, s.fromSeq), s.blocked)
  }

  lemma ResumeRemembers(c: Client, ring: seq<Sequenced>, from: int, blocked: set<nat>, current: nat, k: nat)
    requires c.gapFrom.Some? <==> c.gapTo.Some?
    requires OldestSeq(ring, current) - 1 <= from && 0 <= from <= MAX_SAFE_INTEGER ==>
               !Shrinks(c, Due(c, ring, from), blocked)
    ensures Remembers(c, Resume(c, ring, from, blocked, current), k)
  {
    var oldest: int := OldestSeq(ring, current);
    if from < 0 || from > MAX_SAFE_INTEGER {
      SendRemembers(c, InvalidFromSeq);
    } else if from < oldest - 1 {
      SendRemembers(c, ResumeUnavailable(from, oldest, current));
    } else {
      ReplayClosedForm(c, ring, from, blocked, current, 0);
      var (d, count) := ReplayResult(c, Due(c, ring, from), blocked, current, 0);
      ReplayRemembers(c, Due(c, ring, from), blocked, current, k);
      SendRemembers(d, Resumed(from, count, current));
    }
  }

  /** No entry is numbered beyond n. */
  predicate NumberedUpTo(items: seq<Sequenced>, n: nat) {
    forall i :: 0 <= i < |items| ==> items[i].seqNo <= n
  }

  lemma ReplayPaired(c: Client, due: seq<Sequenced>, blocked: set<nat>, n: nat)
    requires Paired(c, n) && NumberedUpTo(due, n)
    ensures Paired(ReplayResult(c, due, blocked, n, 0).0, n)
  {
  }

  lemma ResumePaired(c: Client, ring: seq<Sequenced>, from: int, blocked: set<nat>, n: nat)
    requires Paired(c, n) && NumberedUpTo(ring, n)
    ensures Paired(Resume(c, ring, from, blocked, n), n)
  {
    if 0 <= from <= MAX_SAFE_INTEGER {
      var due := Due(c, ring, from);
      forall i | 0 <= i < |due| ensures due[i].seqNo <= n {
        DueMembers(c, ring, from, due[i]);
      }
      ReplayPaired(c, due, blocked, n);
      ReplayClosedForm(c, ring, from, blocked, n, 0);
    }
  }

  // ---------- the steps ----------

  /** The account of client c after a step, against the one before: nothing is forgotten. */
  ghost predicate KeptBy(w: World, w': World, c: nat, k: nat) {
    && c < |w.hub.clients| == |w.owed| && c < |w'.hub.clients| == |w'.owed|
    && Paired(w'.hub.clients[c], w'.hub.seqNo) && Remembers(w.hub.clients[c], w'.hub.clients[c], k)
  }

  lemma BroadcastKeeps(cfg: Config, w: World, s: Step, c: nat, k: nat)
    requires c < |w.hub.clients| == |w.owed| && Paired(w.hub.clients[c], w.hub.seqNo) && s.Broadcast?
    ensures KeptBy(w, Next(cfg, w, s), c, k)
    ensures var w' := Next(cfg, w, s);
            w'.owed[c] != w.owed[c] ==>
              w'.owed[c] == w.owed[c] + [Sequenced(w'.hub.seqNo, s.event)]
              && Covered(Accounted(w'.hub.clients[c]), w'.hub.seqNo)
  {
    var item := Sequenced(w.hub.seqNo + 1, s.event);
    BroadcastAt(cfg, w, s, c);
    OfferRemembers(w.hub.clients[c], w.hub.seqNo, item, c in s.congested, k);
    assert w.owed[c] + [] == w.owed[c];
  }

  lemma HeartbeatKeeps(cfg: Config, w: World, s: Step, c: nat, k: nat)
    requires c < |w.hub.clients| == |w.owed| && Paired(w.hub.clients[c], w.hub.seqNo) && s.Heartbeat?
    ensures KeptBy(w, Next(cfg, w, s), c, k) && Next(cfg, w, s).owed == w.owed
  {
    HeartbeatAt(cfg, w, s, c);
    FlushAccounts(w.hub.clients[c], w.hub.seqNo);
  }

  lemma ResumeKeeps(cfg: Config, w: World, s: Step, c: nat, k: nat)
    requires c < |w.hub.clients| == |w.owed| && Paired(w.hub.clients[c], w.hub.seqNo)
    requires s.ResumeCommand? && s.client == c && !Loses(w.hub, s, c) && NumberedUpTo(w.hub.ring, w.hub.seqNo)
    ensures KeptBy(w, Next(cfg, w, s), c, k) && Next(cfg, w, s).owed == w.owed
  {
    if Enabled(w.hub, s) {
      ResumeRemembers(w.hub.clients[c], w.hub.ring, s.fromSeq, s.blocked, w.hub.seqNo, k);
      ResumePaired(w.hub.clients[c], w.hub.ring, s.fromSeq, s.blocked, w.hub.seqNo);
    }
  }

  /** The account of a client before and after a step that sends it at most a frame that accounts for nothing. */
  ghost predicate Quiet(c: Client, d: Client, f: Frame) {
    && d.gapFrom == c.gapFrom && d.gapTo == c.gapTo && SpanOf(f) == []
    && (d.sent == c.sent || d.sent == c.sent + [f])
  }

  lemma QuietRemembers(c: Client, d: Client, f: Frame)
    requires Quiet(c, d, f)
    ensures Accounted(d) == Accounted(c)
  {
    SendRemembers(c, f);
  }

  lemma AdvanceIsQuiet(h: Hub, i: nat, c: nat)
    requires i < |h.clients| && c < |h.clients| && h.clients[i].job.Some?
    ensures AdvanceClient(h, i).seqNo == h.seqNo && |AdvanceClient(h, i).clients| == |h.clients|
    ensures Quiet(h.clients[c], AdvanceClient(h, i).clients[c], Subscribed(h.clients[i].job.value.ids, h.seqNo))
  {
    AdvanceAt(h, i, c);
  }

  lemma UnsubscribeIsQuiet(h: Hub, i: nat, ids: seq<string>, c: nat)
    requires i < |h.clients| && c < |h.clients|
    ensures UnsubscribeStep(h, i, ids).seqNo == h.seqNo && |UnsubscribeStep(h, i, ids).clients| == |h.clients|
    ensures Quiet(h.clients[c], UnsubscribeStep(h, i, ids).clients[c], Unsubscribed(ids, h.seqNo))
  {
    DropSubsKeeps(h, i, ids);
  }

  lemma OtherStepIsQuiet(cfg: Config, h: Hub, s: Step, c: nat) returns (f: Frame)
    requires c < |h.clients| && !s.Broadcast? && !s.Heartbeat? && !(s.ResumeCommand? && s.client == c)
    ensures c < |Apply(cfg, h, s).clients| && Apply(cfg, h, s).seqNo == h.seqNo
    ensures Quiet(h.clients[c], Apply(cfg, h, s).clients[c], f)
  {
    f := SubscriptionLimit;
    if !Enabled(h, s) {
      return;
    }
    if s.Advance? {
      f := Subscribed(h.clients[s.client].job.value.ids, h.seqNo);
      AdvanceIsQuiet(h, s.client, c);
    } else if s.UnsubscribeCommand? {
      f := Unsubscribed(s.ids, h.seqNo);
      UnsubscribeIsQuiet(h, s.client, s.ids, c);
    }
  }

  lemma OtherStepKeeps(cfg: Config, w: World, s: Step, c: nat, k: nat)
    requires c < |w.hub.clients| == |w.owed| && Paired(w.hub.clients[c], w.hub.seqNo)
    requires !s.Broadcast? && !s.Heartbeat? && !(s.ResumeCommand? && s.client == c)
    ensures KeptBy(w, Next(cfg, w, s), c, k) && Next(cfg, w, s).owed[c] == w.owed[c]
  {
    ApplyKeepsClientCount(cfg, w.hub, s);
    var f := OtherStepIsQuiet(cfg, w.hub, s, c);
    QuietRemembers(w.hub.clients[c], Apply(cfg, w.hub, s).clients[c], f);
  }

  lemma StepKeeps(cfg: Config, w: World, s: Step, c: nat, k: nat)
    requires c < |w.hub.clients| == |w.owed| && Paired(w.hub.clients[c], w.hub.seqNo)
    requires !Loses(w.hub, s, c) && NumberedUpTo(w.hub.ring, w.hub.seqNo)
    ensures KeptBy(w, Next(cfg, w, s), c, k)
    ensures var w' := Next(cfg, w, s);
            w'.owed[c] != w.owed[c] ==>
              |w'.owed[c]| == |w.owed[c]| + 1 && w'.owed[c][..|w.owed[c]|] == w.owed[c]
              && Covered(Accounted(w'.hub.clients[c]), w'.owed[c][|w.owed[c]|].seqNo)
  {
    if s.Broadcast? {
      BroadcastKeeps(cfg, w, s, c, k);
    } else if s.Heartbeat? {
      HeartbeatKeeps(cfg, w, s, c, k);
    } else if s.ResumeCommand? && s.client == c {
      ResumeKeeps(cfg, w, s, c, k);
    } else {
      OtherStepKeeps(cfg, w, s, c, k);
    }
  }

  /** The i-th event owed, as the step finds and as it leaves it. */
  lemma StepCovers(cfg: Config, w: World, s: Step, c: nat, i: nat)
    requires c < |w.hub.clients| == |w.owed| && Paired(w.hub.clients[c], w.hub.seqNo)
    requires !Loses(w.hub, s, c) && NumberedUpTo(w.hub.ring, w.hub.seqNo)
    requires i < |w.owed[c]| ==> Covered(Accounted(w.hub.clients[c]), w.owed[c][i].seqNo)
    ensures var w' := Next(cfg, w, s);
            && c < |w'.hub.clients| == |w'.owed|
            && (i < |w'.owed[c]| ==> Covered(Accounted(w'.hub.clients[c]), w'.owed[c][i].seqNo))
  {
    StepKeeps(cfg, w, s, c, if i < |w.owed[c]| then w.owed[c][i].seqNo else 0);
  }

  // ---------- runs ----------

  /** No resume of client c in the run shrinks its pending gap. */
  predicate NothingLost(cfg: Config, steps: seq<Step>, c: nat)
    decreases |steps|
  {
    steps == []
    || (NothingLost(cfg, steps[..|steps| - 1], c) && !Loses(Run(cfg, steps[..|steps| - 1]).hub, steps[|steps| - 1], c))
  }

  lemma RingNumbered(cfg: Config, steps: seq<Step>)
    ensures NumberedUpTo(Run(cfg, steps).hub.ring, Run(cfg, steps).hub.seqNo)
  {
    AlwaysTail(cfg, steps);
  }

  lemma ConnectedPaired(cfg: Config, w: World, s: Step, c: nat)
    requires |w.hub.clients| == |w.owed| <= c < |Next(cfg, w, s).hub.clients|
    ensures c < |Next(cfg, w, s).owed| && Next(cfg, w, s).owed[c] == []
    ensures Paired(Next(cfg, w, s).hub.clients[c], Next(cfg, w, s).hub.seqNo)
  {
    ApplyKeepsClientCount(cfg, w.hub, s);
  }

  lemma {:induction false} AlwaysPaired(cfg: Config, steps: seq<Step>, c: nat)
    requires c < |Run(cfg, steps).hub.clients| && NothingLost(cfg, steps, c)
    ensures Paired(Run(cfg, steps).hub.clients[c], Run(cfg, steps).hub.seqNo)
    decreases |steps|
  {
    if steps != [] {
      var before, s := steps[..|steps| - 1], steps[|steps| - 1];
      var w := Run(cfg, before);
      if c < |w.hub.clients| {
        AlwaysPaired(cfg, before, c);
        RingNumbered(cfg, before);
        StepKeeps(cfg, w, s, c, 0);
      } else {
        ConnectedPaired(cfg, w, s, c);
      }
    }
  }

  /** Main result.  In every run, client c's own resumes included, in which no resume of c is found over its
      limit at a first due event older than the end of the pending gap: every event the client was owed is
      accounted for, by a frame sent or by the pending gap. */
  lemma {:induction false} OwedIsCovered(cfg: Config, steps: seq<Step>, c: nat, i: nat)
    requires c < |Run(cfg, steps).hub.clients| && NothingLost(cfg, steps, c)
    requires i < |Run(cfg, steps).owed[c]|
    ensures Covered(Accounted(Run(cfg, steps).hub.clients[c]), Run(cfg, steps).owed[c][i].seqNo)
    decreases |steps|
  {
    if steps != [] {
      var before, s := steps[..|steps| - 1], steps[|steps| - 1];
      var w := Run(cfg, before);
      if c < |w.hub.clients| {
        AlwaysPaired(cfg, before, c);
        RingNumbered(cfg, before);
        if i < |w.owed[c]| {
          OwedIsCovered(cfg, before, c, i);
        }
        StepCovers(cfg, w, s, c, i);
      } else {
        ConnectedPaired(cfg, w, s, c);
      }
    }
  }

  // ---------- the condition is exact ----------

  lemma {:induction false} OrderedBounds(spans: seq<Span>, n: nat, k: nat)
    requires Ordered(spans, n) && Covered(spans, k)
    ensures k <= n
    decreases |spans|
  {
    var s := spans[|spans| - 1];
    if !Covers(s, k) {
      OrderedBounds(spans[..|spans| - 1], s.lo - 1, k);
    }
  }

  lemma {:induction false} OwedNumberCovered(spans: seq<Span>, owed: seq<Sequenced>, k: nat)
    requires AllCovered(spans, owed) && OwedNumber(owed, k)
    ensures Covered(spans, k)
    decreases |owed|
  {
    if owed[|owed| - 1].seqNo != k {
      OwedNumberCovered(spans, owed[..|owed| - 1], k);
    }
  }

  /** When the gap shrinks, its last number is forgotten. */
  lemma ShrinkingForgets(c: Client, owed: seq<Sequenced>, n: nat, due: seq<Sequenced>, blocked: set<nat>, current: nat)
    requires Faithful(c, owed, n) && Shrinks(c, due, blocked)
    ensures !Covered(Accounted(ReplayResult(c, due, blocked, current, 0).0), c.gapTo.value)
  {
    var k, gap := c.gapTo.value, Span(c.gapFrom.value, c.gapTo.value);
    var spans := Accounted(c);
    assert spans == Spans(c.sent) + [gap];
    assert spans[..|spans| - 1] == Spans(c.sent);
    if Covered(Spans(c.sent), k) {
      OrderedBounds(Spans(c.sent), gap.lo - 1, k);
    }
    ReplayCovers(c, ReplayResult(c, due, blocked, current, 0).0, due, blocked, current, k);
    var rest := Span(c.gapFrom.value, due[0].seqNo);
    assert ResumeSpans(c, due, 0) == [rest];
    CoveredOne(rest, k);
  }

  /** Main result.  From an account that is in order, a granted resume leaves every owed event accounted for
      exactly unless it shrinks the pending gap. */
  lemma ReplayLosesIff(c: Client, owed: seq<Sequenced>, n: nat, due: seq<Sequenced>, blocked: set<nat>, current: nat)
    requires Faithful(c, owed, n)
    ensures AllCovered(Accounted(ReplayResult(c, due, blocked, current, 0).0), owed) <==> !Shrinks(c, due, blocked)
  {
    var d := ReplayResult(c, due, blocked, current, 0).0;
    if Shrinks(c, due, blocked) {
      ShrinkingForgets(c, owed, n, due, blocked, current);
      if AllCovered(Accounted(d), owed) {
        OwedNumberCovered(Accounted(d), owed, c.gapTo.value);
      }
    } else {
      forall k ensures Covered(Accounted(c), k) ==> Covered(Accounted(d), k) {
        if k >= 0 {
          ReplayRemembers(c, due, blocked, current, k);
        }
      }
      CoverGrows(Accounted(c), Accounted(d), owed);
    }
  }

  lemma ResumeLosesIff(c: Client, owed: seq<Sequenced>, n: nat, ring: seq<Sequenced>, from: nat, blocked: set<nat>,
                       current: nat)
    requires Faithful(c, owed, n) && from <= MAX_SAFE_INTEGER && OldestSeq(ring, current) - 1 <= from
    ensures AllCovered(Accounted(Resume(c, ring, from, blocked, current)), owed) <==>
            !Shrinks(c, Due(c, ring, from), blocked)
  {
    var due := Due(c, ring, from);
    var (d, count) := ReplayResult(c, due, blocked, current, 0);
    ReplayClosedForm(c, ring, from, blocked, current, 0);
    SendRemembers(d, Resumed(from, count, current));
    ReplayLosesIff(c, owed, n, due, blocked, current);
  }

  lemma RefusedLosesNothing(c: Client, owed: seq<Sequenced>, ring: seq<Sequenced>, from: int, blocked: set<nat>,
                            current: nat)
    requires AllCovered(Accounted(c), owed)
    requires from < 0 || from > MAX_SAFE_INTEGER || from < OldestSeq(ring, current) - 1
    ensures AllCovered(Accounted(Resume(c, ring, from, blocked, current)), owed)
  {
    if from < 0 || from > MAX_SAFE_INTEGER {
      SendRemembers(c, InvalidFromSeq);
    } else {
      SendRemembers(c, ResumeUnavailable(from, OldestSeq(ring, current), current));
    }
  }

  /** Main result.  After every run in which client c has not resumed before, its resume leaves every event it
      was owed accounted for exactly unless it shrinks the pending gap. */
  lemma FirstResumeLosesIff(cfg: Config, steps: seq<Step>, s: Step, c: nat)
    requires c < |Run(cfg, steps).hub.clients| && NoResume(steps, c)
    requires s.ResumeCommand? && s.client == c && Enabled(Run(cfg, steps).hub, s)
    ensures var w := Run(cfg, steps);
            (forall o :: o in w.owed[c] ==> Covered(Accounted(Apply(cfg, w.hub, s).clients[c]), o.seqNo)) <==>
            !Loses(w.hub, s, c)
  {
    var w := Run(cfg, steps);
    RunFaithful(cfg, steps, c);
    AllCoveredEach(Accounted(Apply(cfg, w.hub, s).clients[c]), w.owed[c]);
    if 0 <= s.fromSeq <= MAX_SAFE_INTEGER && OldestSeq(w.hub.ring, w.hub.seqNo) - 1 <= s.fromSeq {
      ResumeLosesIff(w.hub.clients[c], w.owed[c], w.hub.seqNo, w.hub.ring, s.fromSeq, s.blocked, w.hub.seqNo);
    } else {
      RefusedLosesNothing(w.hub.clients[c], w.owed[c], w.hub.ring, s.fromSeq, s.blocked, w.hub.seqNo);
    }
  }
}
