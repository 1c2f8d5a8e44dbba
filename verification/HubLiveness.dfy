/** Liveness and backpressure over every run: when a client was last heard, when a heartbeat drops it, what is
    never written to a socket that is over its limit or no longer open, and which current number each frame
    carries. */
module HubLiveness {
  import opened Collections
  import opened HubProtocol
  import opened HubDelivery
  import opened HubResume

  // ---------- when a client was last heard ----------

  function Connects(steps: seq<Step>): nat
    decreases |steps|
  {
    if steps == [] then 0 else Connects(steps[..|steps| - 1]) + if steps[|steps| - 1].Connect? then 1 else 0
  }

  /** The time of client c's connection, or of its last pong since. */
  function LastHeard(steps: seq<Step>, c: nat): int
    decreases |steps|
  {
    if steps == [] then 0 else
    var before := steps[..|steps| - 1];
    match steps[|steps| - 1]
    case Connect(now) => if Connects(before) == c then now else LastHeard(before, c)
    case Pong(i, now) => if i == c && c < Connects(before) then now else LastHeard(before, c)
    case _ => LastHeard(before, c)
  }

  lemma {:induction false} ClientsConnected(cfg: Config, steps: seq<Step>)
    ensures |Run(cfg, steps).hub.clients| == Connects(steps)
    decreases |steps|
  {
    if steps != [] {
      var before := steps[..|steps| - 1];
      ClientsConnected(cfg, before);
      ApplyKeepsClientCount(cfg, Run(cfg, before).hub, steps[|steps| - 1]);
    }
  }

  lemma {:induction false} ReplayKeepsPong(c: Client, items: seq<Sequenced>, from: nat, blocked: set<nat>, current: nat,
                                           count: nat)
    ensures Replay(c, items, from, blocked, current, count).0.lastPongAt == c.lastPongAt
    decreases |items|
  {
    if items != [] {
      ReplayKeepsPong(c, items[1..], from, blocked, current, count);
      ReplayKeepsPong(Deliver(c, items[0], true, current), items[1..], from, blocked, current, count + 1);
    }
  }

  lemma ResumeKeepsPong(c: Client, ring: seq<Sequenced>, from: int, blocked: set<nat>, current: nat)
    ensures Resume(c, ring, from, blocked, current).lastPongAt == c.lastPongAt
  {
    if from >= 0 {
      ReplayKeepsPong(c, ring, from, blocked, current, 0);
    }
  }

  lemma StepKeepsPong(cfg: Config, h: Hub, s: Step, c: nat)
    requires c < |h.clients|
    ensures c < |Apply(cfg, h, s).clients|
    ensures Apply(cfg, h, s).clients[c].lastPongAt
         == if s.Pong? && s.client == c then s.now else h.clients[c].lastPongAt
  {
    ApplyKeepsClientCount(cfg, h, s);
    if !Enabled(h, s) {
      return;
    }
    if s.ResumeCommand? {
      ResumeKeepsPong(h.clients[s.client], h.ring, s.fromSeq, s.blocked, h.seqNo);
    } else if s.UnsubscribeCommand? {
      DropSubsKeeps(h, s.client, s.ids);
    }
  }

  /** In every run the hub remembers of each client when it was last heard. */
  lemma {:induction false} LastPongIsLastHeard(cfg: Config, steps: seq<Step>, c: nat)
    requires c < |Run(cfg, steps).hub.clients|
    ensures Run(cfg, steps).hub.clients[c].lastPongAt == LastHeard(steps, c)
    decreases |steps|
  {
    var before, s := steps[..|steps| - 1], steps[|steps| - 1];
    var h := Run(cfg, before).hub;
    ClientsConnected(cfg, before);
    ApplyKeepsClientCount(cfg, h, s);
    if c < |h.clients| {
      LastPongIsLastHeard(cfg, before, c);
      StepKeepsPong(cfg, h, s, c);
    }
  }

  /** Main result.  A heartbeat takes an open client out of the open ones exactly when it has not been heard for
      longer than the idle time, since its connection or its last pong. */
  lemma {:induction false} HeartbeatDropsIff(cfg: Config, steps: seq<Step>, now: int, congested: set<nat>, c: nat)
    requires c < |Run(cfg, steps).hub.clients| && Run(cfg, steps).hub.clients[c].phase == Open
    ensures var h := Apply(cfg, Run(cfg, steps).hub, Heartbeat(now, congested));
            && c < |h.clients|
            && (h.clients[c].phase != Open <==> now - LastHeard(steps, c) > cfg.clientIdleMs)
  {
    LastPongIsLastHeard(cfg, steps, c);
  }

  // ---------- backpressure ----------

  /** A broadcast or a heartbeat writes nothing to a socket that is over its limit or not open, and a broadcast
      only ever delivers what the client's own filter for the stream takes. */
  lemma NothingWritten(cfg: Config, h: Hub, s: Step, c: nat)
    requires c < |h.clients| && (s.Broadcast? || s.Heartbeat?)
    requires c in s.congested || h.clients[c].phase != Open || (s.Broadcast? && !Matches(h.clients[c], s.event))
    ensures c < |Apply(cfg, h, s).clients| && Apply(cfg, h, s).clients[c].sent == h.clients[c].sent
  {
  }

  /** The four descriptions of an event that a filter can name. */
  function Descriptions(e: Event): set<string> {
    {e.kind, e.baseName, e.codeText, e.category}
  }

  /** What a client is sent: events of the streamers it lists, under each listing either all of them or those
      with a description that the listing names. */
  lemma MatchesIff(c: Client, e: Event)
    ensures Matches(c, e) <==>
            && Has(c.subs, e.streamerId)
            && var f := Get(c.subs, e.streamerId).value;
               f == Everything || (f.Named? && f.names * Descriptions(e) != {})
  {
    var f := Get(c.subs, e.streamerId);
    if f.Some? && f.value.Named? {
      assert forall d :: d in f.value.names * Descriptions(e) <==> d in f.value.names && d in Descriptions(e);
      if f.value.names * Descriptions(e) != {} {
        var d :| d in f.value.names * Descriptions(e);
      }
    }
  }

  // ---------- the current number ----------

  function Stamp(f: Frame): Option<nat> {
    match f
    case Hello(n) => Some(n)
    case Gap(_, _, _, n) => Some(n)
    case ResumeUnavailable(_, _, n) => Some(n)
    case Resumed(_, _, n) => Some(n)
    case Subscribed(_, n) => Some(n)
    case Unsubscribed(_, n) => Some(n)
    case _ => None
  }

  /** The second client has been sent all that the first was, and what more it was sent carries this number. */
  ghost predicate Stamped(c: Client, d: Client, n: nat) {
    && |c.sent| <= |d.sent| && d.sent[..|c.sent|] == c.sent
    && forall i :: |c.sent| <= i < |d.sent| && Stamp(d.sent[i]).Some? ==> Stamp(d.sent[i]) == Some(n)
  }

  lemma StampedOn(c: Client, d: Client, e: Client, n: nat)
    requires Stamped(c, d, n) && Stamped(d, e, n)
    ensures Stamped(c, e, n)
  {
    assert e.sent[..|c.sent|] == e.sent[..|d.sent|][..|c.sent|];
    forall i | |c.sent| <= i < |e.sent| && Stamp(e.sent[i]).Some? ensures Stamp(e.sent[i]) == Some(n) {
      if i < |d.sent| {
        assert e.sent[..|d.sent|][i] == d.sent[i];
      }
    }
  }

  lemma SendStamped(c: Client, f: Frame, n: nat)
    requires Stamp(f).Some? ==> Stamp(f) == Some(n)
    ensures Stamped(c, Send(c, f), n)
  {
  }

  lemma DeliverStamped(c: Client, item: Sequenced, replayed: bool, n: nat)
    ensures Stamped(c, Deliver(c, item, replayed, n), n)
  {
  }

  lemma {:induction false} ReplayStamped(c: Client, items: seq<Sequenced>, from: nat, blocked: set<nat>, n: nat,
                                         count: nat)
    ensures Stamped(c, Replay(c, items, from, blocked, n, count).0, n)
    decreases |items|
  {
    if items != [] {
      if items[0].seqNo <= from || !Matches(c, items[0].event) {
        ReplayStamped(c, items[1..], from, blocked, n, count);
      } else if items[0].seqNo !in blocked {
        var d := Deliver(c, items[0], true, n);
        DeliverStamped(c, items[0], true, n);
        ReplayStamped(d, items[1..], from, blocked, n, count + 1);
        StampedOn(c, d, Replay(d, items[1..], from, blocked, n, count + 1).0, n);
      }
    }
  }

  lemma ResumeStamped(c: Client, ring: seq<Sequenced>, from: int, blocked: set<nat>, n: nat)
    ensures Stamped(c, Resume(c, ring, from, blocked, n), n)
  {
    if 0 <= from <= MAX_SAFE_INTEGER && from >= OldestSeq(ring, n) - 1 {
      var (d, count) := Replay(c, ring, from, blocked, n, 0);
      ReplayStamped(c, ring, from, blocked, n, 0);
      SendStamped(d, Resumed(from, count, n), n);
      StampedOn(c, d, Send(d, Resumed(from, count, n)), n);
    }
  }

  /** Whatever a step sends to a client carries the number of the last event broadcast, the one of this step
      included; and nothing sent before is taken back. */
  lemma StepStamped(cfg: Config, h: Hub, s: Step, c: nat)
    requires c < |h.clients|
    ensures c < |Apply(cfg, h, s).clients|
    ensures Stamped(h.clients[c], Apply(cfg, h, s).clients[c], Apply(cfg, h, s).seqNo)
  {
    ApplyKeepsClientCount(cfg, h, s);
    if !Enabled(h, s) {
      return;
    }
    if s.Broadcast? {
      DeliverStamped(h.clients[c], Sequenced(h.seqNo + 1, s.event), false, h.seqNo + 1);
    } else if s.ResumeCommand? && s.client == c {
      ResumeStamped(h.clients[c], h.ring, s.fromSeq, s.blocked, h.seqNo);
    } else if s.UnsubscribeCommand? {
      DropSubsKeeps(h, s.client, s.ids);
    }
  }

  // ---------- the last number sent ----------

  /** The number of the last event among the frames. */
  function LastEvent(sent: seq<Frame>): Option<nat>
    decreases |sent|
  {
    if sent == [] then None
    else if sent[|sent| - 1].EventFrame? then Some(sent[|sent| - 1].seqNo)
    else LastEvent(sent[..|sent| - 1])
  }

  predicate Tracks(c: Client) {
    c.lastSeq == LastEvent(c.sent)
  }

  lemma SendTracks(c: Client, f: Frame)
    ensures LastEvent(Send(c, f).sent) == if f.EventFrame? then Some(f.seqNo) else LastEvent(c.sent)
  {
    assert Send(c, f).sent[..|c.sent|] == c.sent;
  }

  lemma FlushTracks(c: Client, current: nat)
    requires Tracks(c)
    ensures Tracks(FlushGap(c, current))
  {
    if c.gapFrom.Some? {
      var last := if c.gapTo.Some? then c.gapTo.value else c.gapFrom.value;
      SendTracks(c, Gap(c.gapFrom.value, c.gapTo, last - c.gapFrom.value + 1, current));
    }
  }

  lemma DeliverTracks(c: Client, item: Sequenced, replayed: bool, current: nat)
    ensures Tracks(Deliver(c, item, replayed, current))
  {
    SendTracks(FlushGap(c, current), EventFrame(item.seqNo, replayed, item.event));
  }

  lemma {:induction false} ReplayTracks(c: Client, items: seq<Sequenced>, from: nat, blocked: set<nat>, current: nat,
                                        count: nat)
    requires Tracks(c)
    ensures Tracks(Replay(c, items, from, blocked, current, count).0)
    decreases |items|
  {
    if items != [] {
      ReplayTracks(c, items[1..], from, blocked, current, count);
      DeliverTracks(c, items[0], true, current);
      ReplayTracks(Deliver(c, items[0], true, current), items[1..], from, blocked, current, count + 1);
    }
  }

  lemma ResumeTracks(c: Client, ring: seq<Sequenced>, from: int, blocked: set<nat>, current: nat)
    requires Tracks(c)
    ensures Tracks(Resume(c, ring, from, blocked, current))
  {
    SendTracks(c, InvalidFromSeq);
    if 0 <= from {
      var (d, count) := Replay(c, ring, from, blocked, current, 0);
      ReplayTracks(c, ring, from, blocked, current, 0);
      SendTracks(c, ResumeUnavailable(from, OldestSeq(ring, current), current));
      SendTracks(d, Resumed(from, count, current));
    }
  }

  lemma AdvanceTracks(h: Hub, i: nat, c: nat)
    requires c < |h.clients| && Tracks(h.clients[c]) && i < |h.clients| && h.clients[i].job.Some?
    ensures c < |AdvanceClient(h, i).clients| && Tracks(AdvanceClient(h, i).clients[c])
  {
    if c == i {
      SendTracks(h.clients[i], Subscribed(h.clients[i].job.value.ids, h.seqNo));
    } else {
      AdvanceOther(h, i, c);
    }
  }

  lemma AdvanceOther(h: Hub, i: nat, c: nat)
    requires c < |h.clients| && i < |h.clients| && h.clients[i].job.Some? && c != i
    ensures c < |AdvanceClient(h, i).clients| && AdvanceClient(h, i).clients[c] == h.clients[c]
  {
  }

  lemma UnsubscribeTracks(h: Hub, i: nat, ids: seq<string>, c: nat)
    requires c < |h.clients| && Tracks(h.clients[c]) && i < |h.clients|
    ensures c < |UnsubscribeStep(h, i, ids).clients| && Tracks(UnsubscribeStep(h, i, ids).clients[c])
  {
    DropSubsKeeps(h, i, ids);
    SendTracks(DropSubs(h, i, ids).clients[i], Unsubscribed(ids, h.seqNo));
  }

  lemma EventTracks(cfg: Config, h: Hub, s: Step, c: nat)
    requires c < |h.clients| && Tracks(h.clients[c]) && (s.Broadcast? || s.Heartbeat?)
    ensures c < |Apply(cfg, h, s).clients| && Tracks(Apply(cfg, h, s).clients[c])
  {
    if s.Broadcast? {
      DeliverTracks(h.clients[c], Sequenced(h.seqNo + 1, s.event), false, h.seqNo + 1);
    } else {
      FlushTracks(h.clients[c], h.seqNo);
    }
  }

  lemma StepTracks(cfg: Config, h: Hub, s: Step, c: nat)
    requires c < |h.clients| && Tracks(h.clients[c])
    ensures c < |Apply(cfg, h, s).clients| && Tracks(Apply(cfg, h, s).clients[c])
  {
    if Enabled(h, s) {
      match s
      case Broadcast(_, _) => EventTracks(cfg, h, s, c);
      case Heartbeat(_, _) => EventTracks(cfg, h, s, c);
      case Advance(i) => AdvanceTracks(h, i, c);
      case UnsubscribeCommand(i, ids) => UnsubscribeTracks(h, i, ids, c);
      case ResumeCommand(i, from, blocked) => ResumeTracks(h.clients[c], h.ring, from, blocked, h.seqNo);
      case SubscribeCommand(_, _, _) => SendTracks(h.clients[c], SubscriptionLimit);
      case _ =>
    }
  }

  /** In every run the number that `list` reports to a client is that of the last event it was sent, live or
      replayed. */
  lemma {:induction false} LastSeqIsLastSent(cfg: Config, steps: seq<Step>, c: nat)
    requires c < |Run(cfg, steps).hub.clients|
    ensures Run(cfg, steps).hub.clients[c].lastSeq == LastEvent(Run(cfg, steps).hub.clients[c].sent)
    decreases |steps|
  {
    var before, s := steps[..|steps| - 1], steps[|steps| - 1];
    var h := Run(cfg, before).hub;
    ApplyKeepsClientCount(cfg, h, s);
    if c < |h.clients| {
      LastSeqIsLastSent(cfg, before, c);
      StepTracks(cfg, h, s, c);
    } else {
      assert [Hello(h.seqNo)][..0] == [];
    }
  }

  /** A resume command is refused as invalid exactly when its number is negative or too large for a JavaScript
      integer, and then does nothing else. */
  lemma ResumeInvalidIff(cfg: Config, h: Hub, c: nat, from: int, blocked: set<nat>)
    requires Enabled(h, ResumeCommand(c, from, blocked))
    ensures var after := Apply(cfg, h, ResumeCommand(c, from, blocked)).clients[c];
            && (from < 0 || from > 9007199254740991 ==> after == Send(h.clients[c], InvalidFromSeq))
            && (0 <= from <= 9007199254740991 ==> after.sent != [] && after.sent[|after.sent| - 1] != InvalidFromSeq)
  {
  }
}
