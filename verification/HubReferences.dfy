/** Reference conservation: over every interleaving of subscribe legs, unsubscribes, disconnects,
    close handlers and idle timers, the pool counts for a stream exactly the clients that hold it and
    the acquires still pending, so an idle timer never destroys a stream in use. */
module HubReferences {
  import opened Collections
  import opened HubProtocol
  import Pool = ConnectionPool

  predicate Holds(c: Client, id: string) {
    c.phase != Closed && Has(c.subs, id)
  }

  /** The client's subscribe command is suspended in `acquire(id)`. */
  predicate Awaits(c: Client, id: string) {
    c.job.Some? && c.job.value.awaiting && c.job.value.next < |c.job.value.ids|
        && c.job.value.ids[c.job.value.next] == id
  }

  function Weight(c: Client, id: string): nat {
    (if Holds(c, id) then 1 else 0) + (if Awaits(c, id) then 1 else 0)
  }

  /** The clients holding a stream plus the acquires pending for it. */
  function Users(clients: seq<Client>, id: string): nat
    decreases |clients|
  {
    if clients == [] then 0
    else Users(clients[..|clients| - 1], id) + Weight(clients[|clients| - 1], id)
  }

  predicate WellFormedJob(job: Job, subs: Dict<string, Filter>) {
    && NoDuplicates(job.ids) && job.next <= |job.ids|
    && (job.awaiting ==> job.next < |job.ids| && !Has(subs, job.ids[job.next]))
  }

  ghost predicate WellFormed(c: Client) {
    Unique(c.subs) && (c.job.Some? ==> WellFormedJob(c.job.value, c.subs))
  }

  ghost predicate Counted(p: Pool.PoolState, clients: seq<Client>) {
    forall id :: Pool.Refs(p, id) == Users(clients, id)
  }

  ghost predicate AllWellFormed(clients: seq<Client>) {
    forall i :: 0 <= i < |clients| ==> WellFormed(clients[i])
  }

  ghost predicate Conserved(h: Hub) {
    Pool.Sound(h.pool) && AllWellFormed(h.clients) && Counted(h.pool, h.clients)
  }

  // ---------- counting ----------

  lemma {:induction false} UsersUpdate(clients: seq<Client>, i: nat, c: Client, id: string)
    requires i < |clients|
    ensures Users(clients[i := c], id) + Weight(clients[i], id) == Users(clients, id) + Weight(c, id)
    ensures Users(clients, id) >= Weight(clients[i], id)
    decreases |clients|
  {
    var n := |clients| - 1;
    if i < n {
      UsersUpdate(clients[..n], i, c, id);
      assert clients[i := c][..n] == clients[..n][i := c];
    } else {
      assert clients[i := c][..n] == clients[..n];
    }
  }

  lemma {:induction false} UsersSame(a: seq<Client>, b: seq<Client>, id: string)
    requires |a| == |b| && forall i :: 0 <= i < |a| ==> Weight(a[i], id) == Weight(b[i], id)
    ensures Users(a, id) == Users(b, id)
    decreases |a|
  {
    if a != [] {
      UsersSame(a[..|a| - 1], b[..|b| - 1], id);
    }
  }

  /** Replacing one client and the pool keeps the count when both change by the same amount. */
  lemma Swap(h: Hub, i: nat, c: Client, p: Pool.PoolState)
    requires Conserved(h) && i < |h.clients| && WellFormed(c) && Pool.Sound(p)
    requires forall id :: Pool.Refs(p, id) + Weight(h.clients[i], id) == Pool.Refs(h.pool, id) + Weight(c, id)
    ensures Conserved(h.(clients := h.clients[i := c], pool := p))
  {
    forall id ensures Pool.Refs(p, id) == Users(h.clients[i := c], id) {
      UsersUpdate(h.clients, i, c, id);
    }
  }

  lemma SameWeights(h: Hub, clients: seq<Client>)
    requires Conserved(h) && |clients| == |h.clients| && AllWellFormed(clients)
    requires forall i, id :: 0 <= i < |clients| ==> Weight(clients[i], id) == Weight(h.clients[i], id)
    ensures Counted(h.pool, clients)
  {
    forall id ensures Pool.Refs(h.pool, id) == Users(clients, id) {
      UsersSame(clients, h.clients, id);
    }
  }

  // ---------- the steps ----------

  lemma AcquireLeg(h: Hub, i: nat)
    requires Conserved(h) && i < |h.clients| && h.clients[i].job.Some?
    requires var job := h.clients[i].job.value;
             job.next < |job.ids| && !job.awaiting && !Has(h.clients[i].subs, job.ids[job.next])
    ensures Conserved(AdvanceClient(h, i))
  {
    var c := h.clients[i];
    var job := c.job.value;
    var id := job.ids[job.next];
    Pool.AcquireKeepsSound(h.pool, id);
    Swap(h, i, c.(job := Some(job.(awaiting := true))), Pool.Acquired(h.pool, id, false));
  }

  lemma AbandonLeg(h: Hub, i: nat)
    requires Conserved(h) && i < |h.clients| && h.clients[i].job.Some?
    requires var job := h.clients[i].job.value;
             job.next < |job.ids| && job.awaiting && h.clients[i].phase != Open
    ensures Conserved(AdvanceClient(h, i))
  {
    var c := h.clients[i];
    var id := c.job.value.ids[c.job.value.next];
    UsersUpdate(h.clients, i, c, id);
    Pool.ReleaseKeepsSoundIff(h.pool, id);
    Swap(h, i, c.(job := None), Pool.Released(h.pool, id));
  }

  lemma RecordLeg(h: Hub, i: nat)
    requires Conserved(h) && i < |h.clients| && h.clients[i].job.Some?
    requires var job := h.clients[i].job.value;
             job.next < |job.ids|
             && if job.awaiting then h.clients[i].phase == Open else Has(h.clients[i].subs, job.ids[job.next])
    ensures Conserved(AdvanceClient(h, i))
  {
    var c := h.clients[i];
    var job := c.job.value;
    var id := job.ids[job.next];
    var d := c.(subs := Put(c.subs, id, job.filter), job := Some(job.(next := job.next + 1, awaiting := false)));
    PutFacts(c.subs, id, job.filter);
    forall x ensures Weight(d, x) == Weight(c, x) {
      HasIff(d.subs, x);
      HasIff(c.subs, x);
    }
    Swap(h, i, d, h.pool);
  }

  lemma AdvanceConserves(h: Hub, i: nat)
    requires Conserved(h) && i < |h.clients| && h.clients[i].job.Some?
    ensures Conserved(AdvanceClient(h, i))
  {
    var c := h.clients[i];
    var job := c.job.value;
    if job.next >= |job.ids| {
      Swap(h, i, Send(c, Subscribed(job.ids, h.seqNo)).(job := None), h.pool);
    } else if !job.awaiting && !Has(c.subs, job.ids[job.next]) {
      AcquireLeg(h, i);
    } else if job.awaiting && c.phase != Open {
      AbandonLeg(h, i);
    } else {
      RecordLeg(h, i);
    }
  }

  lemma DropSubConserves(h: Hub, i: nat, id: string)
    requires Conserved(h) && i < |h.clients| && h.clients[i].phase != Closed && h.clients[i].job.None?
    ensures Conserved(DropSub(h, i, id))
    ensures var c := DropSub(h, i, id).clients[i]; c.phase != Closed && c.job.None?
  {
    var c := h.clients[i];
    if Has(c.subs, id) {
      var d := c.(subs := Remove(c.subs, id));
      RemoveFacts(c.subs, id);
      UsersUpdate(h.clients, i, c, id);
      Pool.ReleaseKeepsSoundIff(h.pool, id);
      forall x ensures Weight(d, x) == if x == id then 0 else Weight(c, x) {
        HasIff(d.subs, x);
        HasIff(c.subs, x);
      }
      Swap(h, i, d, Pool.Released(h.pool, id));
    }
  }

  lemma {:induction false} DropSubsConserves(h: Hub, i: nat, ids: seq<string>)
    requires Conserved(h) && i < |h.clients| && h.clients[i].phase != Closed && h.clients[i].job.None?
    ensures Conserved(DropSubs(h, i, ids))
    ensures var c := DropSubs(h, i, ids).clients[i]; c.phase != Closed && c.job.None?
    decreases |ids|
  {
    if ids != [] {
      DropSubsConserves(h, i, ids[..|ids| - 1]);
      DropSubConserves(DropSubs(h, i, ids[..|ids| - 1]), i, ids[|ids| - 1]);
    }
  }

  /** Releasing distinct held streams takes one reference from each of them. */
  lemma {:induction false} ReleaseAllFacts(p: Pool.PoolState, ids: seq<string>)
    requires Pool.Sound(p) && NoDuplicates(ids) && forall i :: 0 <= i < |ids| ==> Pool.Refs(p, ids[i]) > 0
    ensures Pool.Sound(ReleaseAll(p, ids))
    ensures forall x :: Pool.Refs(ReleaseAll(p, ids), x) == Pool.Refs(p, x) - if x in ids then 1 else 0
    decreases |ids|
  {
    if ids != [] {
      var init := ids[..|ids| - 1];
      ReleaseAllFacts(p, init);
      Pool.ReleaseKeepsSoundIff(ReleaseAll(p, init), ids[|ids| - 1]);
      assert ids == init + [ids[|ids| - 1]];
      assert ids[|ids| - 1] !in init;
    }
  }

  lemma CloseConserves(h: Hub, i: nat)
    requires Conserved(h) && i < |h.clients| && h.clients[i].phase != Closed
    ensures var pool := ReleaseAll(h.pool, Keys(h.clients[i].subs));
            Conserved(SetClient(h, i, h.clients[i].(phase := Closed)).(pool := pool))
  {
    var c := h.clients[i];
    var ids := Keys(c.subs);
    forall j | 0 <= j < |ids| ensures Pool.Refs(h.pool, ids[j]) > 0 {
      HasIff(c.subs, ids[j]);
      UsersUpdate(h.clients, i, c, ids[j]);
    }
    ReleaseAllFacts(h.pool, ids);
    forall x ensures Weight(c.(phase := Closed), x) == Weight(c, x) - if x in ids then 1 else 0 {
      HasIff(c.subs, x);
    }
    Swap(h, i, c.(phase := Closed), ReleaseAll(h.pool, ids));
  }

  lemma UsersAppend(clients: seq<Client>, c: Client, id: string)
    ensures Users(clients + [c], id) == Users(clients, id) + Weight(c, id)
  {
    assert (clients + [c])[..|clients|] == clients;
  }

  lemma ConnectConserves(h: Hub, now: int)
    requires Conserved(h)
    ensures Conserved(h.(clients := h.clients + [Connected(now, h.seqNo)]))
  {
    forall id ensures Pool.Refs(h.pool, id) == Users(h.clients + [Connected(now, h.seqNo)], id) {
      UsersAppend(h.clients, Connected(now, h.seqNo), id);
    }
  }

  /** Delivering, gapping and beating touch no subscription. */
  lemma {:induction false} ReplayTouches(c: Client, items: seq<Sequenced>, from: nat, blocked: set<nat>, current: nat,
                                         count: nat)
    ensures var d := Replay(c, items, from, blocked, current, count).0;
            d.phase == c.phase && d.subs == c.subs && d.job == c.job
    decreases |items|
  {
    if items != [] {
      ReplayTouches(c, items[1..], from, blocked, current, count);
      ReplayTouches(Deliver(c, items[0], true, current), items[1..], from, blocked, current, count + 1);
    }
  }

  lemma BroadcastConserves(h: Hub, item: Sequenced, congested: set<nat>)
    requires Conserved(h)
    ensures Counted(h.pool, BroadcastTo(h.clients, item, congested))
            && AllWellFormed(BroadcastTo(h.clients, item, congested))
  {
    SameWeights(h, BroadcastTo(h.clients, item, congested));
  }

  lemma HeartbeatConserves(h: Hub, now: int, idleMs: int, congested: set<nat>)
    requires Conserved(h)
    ensures Counted(h.pool, BeatAll(h.clients, now, idleMs, congested, h.seqNo))
    ensures AllWellFormed(BeatAll(h.clients, now, idleMs, congested, h.seqNo))
  {
    SameWeights(h, BeatAll(h.clients, now, idleMs, congested, h.seqNo));
  }

  lemma SettingConserves(h: Hub, i: nat, c: Client)
    requires Conserved(h) && i < |h.clients|
    requires c.subs == h.clients[i].subs && (c.phase == Closed <==> h.clients[i].phase == Closed)
    requires c.job == h.clients[i].job
             || (h.clients[i].job.None? && c.job.Some? && WellFormedJob(c.job.value, c.subs) && !c.job.value.awaiting)
    ensures Conserved(SetClient(h, i, c))
  {
    Swap(h, i, c, h.pool);
  }

  /** An unsubscribe that its client had queued behind the close handler, which has already released
      everything the client still lists. */
  predicate Late(h: Hub, s: Step) {
    s.UnsubscribeCommand? && s.client < |h.clients| && h.clients[s.client].phase == Closed
  }

  /** One id of a late unsubscribe keeps the books exactly when the client does not list the stream any
      more or the pool has dropped it: otherwise it releases somebody else's reference, or arms a second
      timer for an idle stream. */
  lemma LateDropIff(h: Hub, i: nat, id: string)
    requires Conserved(h) && i < |h.clients| && h.clients[i].phase == Closed && h.clients[i].job.None?
    ensures Conserved(DropSub(h, i, id)) <==> !(Has(h.clients[i].subs, id) && id in h.pool.entries)
  {
    var c := h.clients[i];
    if Has(c.subs, id) {
      var d := c.(subs := Remove(c.subs, id));
      RemoveFacts(c.subs, id);
      Pool.ReleaseKeepsSoundIff(h.pool, id);
      UsersUpdate(h.clients, i, d, id);
      if id !in h.pool.entries {
        Swap(h, i, d, h.pool);
      }
    }
  }

  /** Some id of the list is one that the client still lists and the pool still has. */
  predicate Takes(h: Hub, i: nat, ids: seq<string>)
    requires i < |h.clients|
  {
    exists id :: id in ids && Has(h.clients[i].subs, id) && id in h.pool.entries
  }

  lemma DropHas(c: Client, id: string, x: string)
    requires Unique(c.subs)
    ensures Has(Remove(c.subs, id), x) <==> Has(c.subs, x) && x != id
  {
    RemoveFacts(c.subs, id);
    HasIff(c.subs, x);
    HasIff(Remove(c.subs, id), x);
  }

  /** What a late unsubscribe leaves of its own client. */
  lemma {:induction false} LateDropsClient(h: Hub, i: nat, ids: seq<string>, x: string)
    requires i < |h.clients| && Unique(h.clients[i].subs)
    ensures var d := DropSubs(h, i, ids);
            && Unique(d.clients[i].subs) && d.clients == h.clients[i := h.clients[i].(subs := d.clients[i].subs)]
            && (Has(d.clients[i].subs, x) <==> Has(h.clients[i].subs, x) && x !in ids)
    decreases |ids|
  {
    if ids != [] {
      var init, id := ids[..|ids| - 1], ids[|ids| - 1];
      LateDropsClient(h, i, init, x);
      var c := DropSubs(h, i, init).clients[i];
      RemoveFacts(c.subs, id);
      DropHas(c, id, x);
      assert ids == init + [id];
    }
  }

  lemma {:induction false} LateDropsHarmless(h: Hub, i: nat, ids: seq<string>)
    requires Conserved(h) && i < |h.clients| && h.clients[i].phase == Closed && h.clients[i].job.None?
    requires !Takes(h, i, ids)
    ensures Conserved(DropSubs(h, i, ids)) && DropSubs(h, i, ids).pool == h.pool
    ensures var c := DropSubs(h, i, ids).clients[i]; c.phase == Closed && c.job.None?
    decreases |ids|
  {
    if ids != [] {
      var init, id := ids[..|ids| - 1], ids[|ids| - 1];
      assert ids == init + [id];
      LateDropsHarmless(h, i, init);
      LateDropsClient(h, i, init, id);
      LateDropIff(DropSubs(h, i, init), i, id);
    }
  }

  /** The pool has lost a reference to the stream, or has armed another timer for it. */
  predicate Spoiled(p: Pool.PoolState, q: Pool.PoolState, id: string) {
    && id in p.entries && id in q.entries
    && if Pool.Refs(p, id) > 0 then Pool.Refs(q, id) == Pool.Refs(p, id) - 1
       else q.entries[id].idle != p.entries[id].idle
  }

  /** The pool has kept the stream as it was. */
  predicate Untouched(p: Pool.PoolState, q: Pool.PoolState, id: string) {
    id in p.entries && id in q.entries && q.entries[id] == p.entries[id]
  }

  /** Timers are only added. */
  ghost predicate TimersStay(p: Pool.PoolState, q: Pool.PoolState) {
    p.nextTimer <= q.nextTimer && forall t :: t in p.timers ==> t in q.timers && q.timers[t] == p.timers[t]
  }

  lemma ReleaseSpoils(p: Pool.PoolState, q: Pool.PoolState, id: string)
    requires Pool.Sound(p) && TimersStay(p, q) && Untouched(p, q, id)
    ensures Spoiled(p, Pool.Released(q, id), id)
  {
  }

  lemma ReleaseSparesOthers(p: Pool.PoolState, q: Pool.PoolState, id: string, x: string)
    requires Pool.Sound(p) && TimersStay(p, q)
    ensures TimersStay(p, Pool.Released(q, id))
    ensures x != id && x in q.entries ==>
            x in Pool.Released(q, id).entries && Pool.Released(q, id).entries[x] == q.entries[x]
  {
  }

  lemma {:induction false} LateDropsPool(h: Hub, i: nat, ids: seq<string>, x: string)
    requires Conserved(h) && i < |h.clients| && NoDuplicates(ids) && x in h.pool.entries
    ensures var q := DropSubs(h, i, ids).pool;
            && TimersStay(h.pool, q)
            && if x in ids && Has(h.clients[i].subs, x) then Spoiled(h.pool, q, x) else Untouched(h.pool, q, x)
    decreases |ids|
  {
    if ids != [] {
      var init, id := ids[..|ids| - 1], ids[|ids| - 1];
      assert ids == init + [id];
      LateDropsPool(h, i, init, x);
      LateDropsClient(h, i, init, id);
      var q := DropSubs(h, i, init).pool;
      ReleaseSparesOthers(h.pool, q, id, x);
      if x == id && Has(h.clients[i].subs, x) {
        ReleaseSpoils(h.pool, q, x);
      }
    }
  }

  lemma SpoiledIsUnsound(h: Hub, g: Hub, id: string)
    requires Conserved(h) && Spoiled(h.pool, g.pool, id) && TimersStay(h.pool, g.pool)
    requires Users(g.clients, id) == Users(h.clients, id)
    ensures !Conserved(g)
  {
    if Pool.Refs(h.pool, id) == 0 {
      var t := h.pool.entries[id].idle.value;
      assert t in g.pool.timers && g.pool.timers[t] == id;
    }
  }

  /** A late unsubscribe keeps the books exactly when none of its ids is one that the client still lists
      and the pool still has. */
  lemma LateUnsubscribeIff(cfg: Config, h: Hub, i: nat, ids: seq<string>)
    requires Conserved(h) && Late(h, UnsubscribeCommand(i, ids)) && Enabled(h, UnsubscribeCommand(i, ids))
    ensures Conserved(Apply(cfg, h, UnsubscribeCommand(i, ids))) <==> !Takes(h, i, ids)
  {
    var d := DropSubs(h, i, ids);
    var sent := Send(d.clients[i], Unsubscribed(ids, d.seqNo));
    if Takes(h, i, ids) {
      var id :| id in ids && Has(h.clients[i].subs, id) && id in h.pool.entries;
      LateDropsPool(h, i, ids, id);
      LateDropsClient(h, i, ids, id);
      UsersUpdate(h.clients, i, sent, id);
      assert d.clients[i := sent] == h.clients[i := sent];
      SpoiledIsUnsound(h, SetClient(d, i, sent), id);
    } else {
      LateDropsHarmless(h, i, ids);
      SettingConserves(d, i, sent);
    }
  }

  lemma TimelyStepConserves(cfg: Config, h: Hub, s: Step)
    requires Conserved(h) && !Late(h, s)
    ensures Conserved(Apply(cfg, h, s))
  {
    if Enabled(h, s) {
      match s
      case Connect(now) => ConnectConserves(h, now);
      case Pong(i, now) => SettingConserves(h, i, h.clients[i].(lastPongAt := now));
      case Broadcast(e, congested) => BroadcastConserves(h, Sequenced(h.seqNo + 1, e), congested);
      case Heartbeat(now, congested) => HeartbeatConserves(h, now, cfg.clientIdleMs, congested);
      case ResumeCommand(i, from, blocked) =>
        if from >= 0 {
          ReplayTouches(h.clients[i], h.ring, from, blocked, h.seqNo, 0);
        }
        SettingConserves(h, i, Resume(h.clients[i], h.ring, from, blocked, h.seqNo));
      case SubscribeCommand(i, ids, filter) =>
        SettingConserves(h, i, StartSubscribe(h.clients[i], ids, filter, cfg.maxSubscriptions));
      case Advance(i) => AdvanceConserves(h, i);
      case UnsubscribeCommand(i, ids) =>
        DropSubsConserves(h, i, ids);
        var h' := DropSubs(h, i, ids);
        SettingConserves(h', i, Send(h'.clients[i], Unsubscribed(ids, h'.seqNo)));
      case Disconnect(i) => SettingConserves(h, i, h.clients[i].(phase := Closing));
      case CloseEvent(i) => CloseConserves(h, i);
      case FireTimer(t) => Pool.FireIsHarmless(h.pool, t);
    }
  }

  /** The one step outside the theorem: a late unsubscribe of a stream that its client still lists and the pool
      still has. */
  predicate Harms(h: Hub, s: Step) {
    Late(h, s) && Enabled(h, s) && Takes(h, s.client, s.ids)
  }

  /** Each step keeps the books exactly unless it is of that kind. */
  lemma StepConservesIff(cfg: Config, h: Hub, s: Step)
    requires Conserved(h)
    ensures Conserved(Apply(cfg, h, s)) <==> !Harms(h, s)
  {
    if !Late(h, s) {
      TimelyStepConserves(cfg, h, s);
    } else if Enabled(h, s) {
      LateUnsubscribeIff(cfg, h, s.client, s.ids);
    }
  }

  /** No step of the run does harm. */
  predicate Quiet(cfg: Config, steps: seq<Step>)
    decreases |steps|
  {
    steps == []
    || (Quiet(cfg, steps[..|steps| - 1]) && !Harms(Run(cfg, steps[..|steps| - 1]).hub, steps[|steps| - 1]))
  }

  /** Main result.  After every run without such steps: each stream's count is the number of
      clients holding it plus the acquires pending for it; an idle timer is armed for a stream
      exactly when that number is zero, and is armed once. */
  lemma {:induction false} ReferenceConservation(cfg: Config, steps: seq<Step>)
    requires Quiet(cfg, steps)
    ensures var h := Run(cfg, steps).hub;
            && (forall id :: Pool.Refs(h.pool, id) == Users(h.clients, id))
            && Pool.Sound(h.pool) && AllWellFormed(h.clients)
    decreases |steps|
  {
    if steps != [] {
      ReferenceConservation(cfg, steps[..|steps| - 1]);
      StepConservesIff(cfg, Run(cfg, steps[..|steps| - 1]).hub, steps[|steps| - 1]);
    }
  }

  /** A stream that a client holds, or is waiting for, is in the pool and stays there whatever timer
      fires next. */
  lemma StreamInUseSurvives(cfg: Config, steps: seq<Step>, id: string, t: nat)
    requires Quiet(cfg, steps) && Users(Run(cfg, steps).hub.clients, id) > 0
    requires t in Run(cfg, steps).hub.pool.timers
    ensures id in Pool.Fired(Run(cfg, steps).hub.pool, t).entries
  {
    ReferenceConservation(cfg, steps);
    var p := Run(cfg, steps).hub.pool;
    assert Pool.Refs(p, id) > 0;
    Pool.FireIsHarmless(p, t);
  }

  // ---------- a run in which it happens ----------

  lemma {:induction false} StaysQuiet(cfg: Config, steps: seq<Step>, s: Step)
    requires Quiet(cfg, steps) && !s.UnsubscribeCommand?
    ensures Quiet(cfg, steps + [s])
    ensures Run(cfg, steps + [s]).hub == Apply(cfg, Run(cfg, steps).hub, s)
  {
    assert (steps + [s])[..|steps|] == steps;
    RunNext(cfg, steps, s);
  }

  /** The client after it has subscribed to everything of its first streamer. */
  function Taking(c: Client, id: string, current: nat): Client {
    c.(subs := [(id, Everything)], sent := c.sent + [Subscribed([id], current)])
  }

  predicate Idle(h: Hub, i: nat) {
    i < |h.clients| && h.clients[i].phase == Open && h.clients[i].job.None? && h.clients[i].subs == []
  }

  lemma FirstLegs(cfg: Config, h: Hub, i: nat, id: string)
    requires Idle(h, i) && cfg.maxSubscriptions >= 1
    ensures var s := SubscribeCommand(i, [id], Everything);
            Apply(cfg, Apply(cfg, h, s), Advance(i))
            == h.(clients := h.clients[i := h.clients[i].(job := Some(Job([id], 0, true, Everything)))],
                  pool := Pool.Acquired(h.pool, id, false))
  {
    assert NewIds([], [id]) == 1;
  }

  lemma LastLegs(cfg: Config, h: Hub, i: nat, id: string)
    requires i < |h.clients| && h.clients[i].phase == Open && h.clients[i].subs == []
    requires h.clients[i].job == Some(Job([id], 0, true, Everything))
    ensures Apply(cfg, Apply(cfg, h, Advance(i)), Advance(i))
         == h.(clients := h.clients[i := Taking(h.clients[i].(job := None), id, h.seqNo)])
  {
    assert Put(h.clients[i].subs, id, Everything) == [(id, Everything)];
  }

  lemma {:induction false} TwoMore(cfg: Config, before: seq<Step>, s: Step, t: Step) returns (steps: seq<Step>)
    requires Quiet(cfg, before) && !s.UnsubscribeCommand? && !t.UnsubscribeCommand?
    ensures Quiet(cfg, steps)
    ensures Run(cfg, steps).hub == Apply(cfg, Apply(cfg, Run(cfg, before).hub, s), t)
  {
    StaysQuiet(cfg, before, s);
    StaysQuiet(cfg, before + [s], t);
    steps := before + [s] + [t];
  }

  lemma {:induction false} Subscribes(cfg: Config, before: seq<Step>, h: Hub, i: nat, id: string)
    returns (steps: seq<Step>)
    requires Quiet(cfg, before) && Run(cfg, before).hub == h && Idle(h, i) && cfg.maxSubscriptions >= 1
    ensures Quiet(cfg, steps)
    ensures Run(cfg, steps).hub
         == h.(clients := h.clients[i := Taking(h.clients[i], id, h.seqNo)], pool := Pool.Acquired(h.pool, id, false))
  {
    FirstLegs(cfg, h, i, id);
    var c, p := h.clients[i].(job := Some(Job([id], 0, true, Everything))), Pool.Acquired(h.pool, id, false);
    var waiting := h.(clients := h.clients[i := c], pool := p);
    LastLegs(cfg, waiting, i, id);
    assert c.(job := None) == h.clients[i];
    assert waiting.clients[i := Taking(h.clients[i], id, h.seqNo)] == h.clients[i := Taking(h.clients[i], id, h.seqNo)];
    steps := TwoMore(cfg, before, SubscribeCommand(i, [id], Everything), Advance(i));
    steps := TwoMore(cfg, steps, Advance(i), Advance(i));
  }

  /** The pool after n clients have taken one stream. */
  function Taken(id: string, n: nat): Pool.PoolState {
    Pool.PoolState(map[id := Pool.EntryState(n, false, None)], map[], 0)
  }

  lemma TakenOnce(id: string)
    ensures Pool.Acquired(Pool.EMPTY, id, false) == Taken(id, 1)
    ensures Pool.Acquired(Taken(id, 1), id, false) == Taken(id, 2)
    ensures Pool.Released(Taken(id, 2), id) == Taken(id, 1)
    ensures Pool.Released(Taken(id, 1), id)
         == Pool.PoolState(map[id := Pool.EntryState(0, false, Some(0))], map[0 := id], 1)
  {
  }

  lemma {:induction false} TwoConnect(cfg: Config) returns (steps: seq<Step>)
    ensures Quiet(cfg, steps)
    ensures Run(cfg, steps).hub == Hub(0, [], [Connected(0, 0), Connected(0, 0)], Pool.EMPTY)
  {
    steps := TwoMore(cfg, [], Connect(0), Connect(0));
    assert [] + [Connected(0, 0)] + [Connected(0, 0)] == [Connected(0, 0), Connected(0, 0)];
  }

  lemma {:induction false} TwoSubscribe(cfg: Config, id: string) returns (steps: seq<Step>)
    requires cfg.maxSubscriptions >= 1
    ensures Quiet(cfg, steps)
    ensures var c := Taking(Connected(0, 0), id, 0);
            Run(cfg, steps).hub == Hub(0, [], [c, c], Taken(id, 2))
  {
    var start, c := Connected(0, 0), Taking(Connected(0, 0), id, 0);
    TakenOnce(id);
    steps := TwoConnect(cfg);
    steps := Subscribes(cfg, steps, Hub(0, [], [start, start], Pool.EMPTY), 0, id);
    assert [start, start][0 := c] == [c, start];
    steps := Subscribes(cfg, steps, Hub(0, [], [c, start], Taken(id, 1)), 1, id);
    assert [c, start][1 := c] == [c, c];
  }

  lemma FirstCloses(cfg: Config, id: string, c: Client)
    requires c.phase == Open && c.subs == [(id, Everything)]
    ensures Apply(cfg, Hub(0, [], [c, c], Taken(id, 2)), CloseEvent(0))
         == Hub(0, [], [c.(phase := Closed), c], Taken(id, 1))
  {
    TakenOnce(id);
    assert Keys(c.subs) == [id];
    assert [id][..0] == [];
    assert ReleaseAll(Taken(id, 2), [id]) == Taken(id, 1);
  }

  /** Two clients of one stream, and the first one closes. */
  lemma {:induction false} OneOfTwoCloses(cfg: Config, id: string) returns (steps: seq<Step>)
    requires cfg.maxSubscriptions >= 1
    ensures Quiet(cfg, steps)
    ensures var c := Taking(Connected(0, 0), id, 0);
            Run(cfg, steps).hub == Hub(0, [], [c.(phase := Closed), c], Taken(id, 1))
  {
    steps := TwoSubscribe(cfg, id);
    FirstCloses(cfg, id, Taking(Connected(0, 0), id, 0));
    StaysQuiet(cfg, steps, CloseEvent(0));
    steps := steps + [CloseEvent(0)];
  }

  lemma FirstUnsubscribes(cfg: Config, id: string, c: Client, d: Client)
    requires c.phase == Closed && c.job.None? && c.subs == [(id, Everything)]
    ensures var h := Apply(cfg, Hub(0, [], [c, d], Taken(id, 1)), UnsubscribeCommand(0, [id]));
            && |h.clients| == 2 && h.clients[1] == d
            && h.pool == Pool.PoolState(map[id := Pool.EntryState(0, false, Some(0))], map[0 := id], 1)
  {
    TakenOnce(id);
    assert [id][..0] == [];
    assert Has(c.subs, id) by { assert IndexOf(c.subs, id) == 0; }
    assert DropSubs(Hub(0, [], [c, d], Taken(id, 1)), 0, [id]).pool == Pool.Released(Taken(id, 1), id);
  }

  /** The damage is reachable: the late unsubscribe of a client that has closed takes the reference of
      the client that has not, and the timer it arms destroys the stream which that client still holds. */
  lemma {:induction false} LateUnsubscribeDestroysStream(cfg: Config, id: string) returns (steps: seq<Step>, t: nat)
    requires cfg.maxSubscriptions >= 1
    ensures Quiet(cfg, steps)
    ensures var late := Run(cfg, steps + [UnsubscribeCommand(0, [id])]).hub;
            var fired := Run(cfg, steps + [UnsubscribeCommand(0, [id])] + [FireTimer(t)]).hub;
            && Enabled(late, FireTimer(t)) && |fired.clients| == 2
            && Holds(fired.clients[1], id) && id !in fired.pool.entries
  {
    steps := OneOfTwoCloses(cfg, id);
    t := 0;
    var c := Taking(Connected(0, 0), id, 0);
    FirstUnsubscribes(cfg, id, c.(phase := Closed), c);
    RunNext(cfg, steps, UnsubscribeCommand(0, [id]));
    RunNext(cfg, steps + [UnsubscribeCommand(0, [id])], FireTimer(t));
    assert IndexOf(c.subs, id) == 0;
  }

  // ---------- the subscription limit ----------

  /** Subscriptions held, plus those the running command may still add, fit the limit. */
  ghost predicate WithinLimit(c: Client, limit: nat) {
    && Unique(c.subs) && |c.subs| <= limit
    && (c.job.Some? ==>
          var job := c.job.value;
          NoDuplicates(job.ids) && job.next <= |job.ids| && |c.subs| + NewIds(c.subs, job.ids[job.next..]) <= limit)
  }

  lemma {:induction false} NewIdsAfterPut(subs: Dict<string, Filter>, id: string, filter: Filter, ids: seq<string>)
    requires Unique(subs) && id !in ids
    ensures NewIds(Put(subs, id, filter), ids) == NewIds(subs, ids)
    decreases |ids|
  {
    if ids != [] {
      PutFacts(subs, id, filter);
      HasIff(subs, ids[0]);
      HasIff(Put(subs, id, filter), ids[0]);
      NewIdsAfterPut(subs, id, filter, ids[1..]);
    }
  }

  lemma {:induction false} DropSubsShrinks(h: Hub, i: nat, ids: seq<string>, limit: nat)
    requires i < |h.clients| && WithinLimit(h.clients[i], limit) && h.clients[i].job.None?
    ensures var d := DropSubs(h, i, ids); WithinLimit(d.clients[i], limit) && d.clients[i].job.None?
    decreases |ids|
  {
    if ids != [] {
      var init := ids[..|ids| - 1];
      DropSubsShrinks(h, i, init, limit);
      RemoveFacts(DropSubs(h, i, init).clients[i].subs, ids[|ids| - 1]);
    }
  }

  lemma RecordWithinLimit(c: Client, limit: nat)
    requires WithinLimit(c, limit) && c.job.Some? && c.job.value.next < |c.job.value.ids|
    ensures var job := c.job.value;
            var id := job.ids[job.next];
            WithinLimit(c.(subs := Put(c.subs, id, job.filter),
                job := Some(job.(next := job.next + 1, awaiting := false))), limit)
  {
    var job := c.job.value;
    var id, rest := job.ids[job.next], job.ids[job.next + 1..];
    assert job.ids[job.next..] == [id] + rest;
    PutFacts(c.subs, id, job.filter);
    NewIdsAfterPut(c.subs, id, job.filter, rest);
  }

  /** A step that is not a subscription command of client c leaves its subscriptions alone. */
  lemma OtherStepsKeepSubs(cfg: Config, h: Hub, s: Step, c: nat)
    requires c < |h.clients|
    requires !((s.Advance? || s.SubscribeCommand? || s.UnsubscribeCommand?) && s.client == c)
    ensures c < |Apply(cfg, h, s).clients|
    ensures Apply(cfg, h, s).clients[c].subs == h.clients[c].subs && Apply(cfg, h, s).clients[c].job == h.clients[c].job
  {
    ApplyKeepsClientCount(cfg, h, s);
    if s.UnsubscribeCommand? && Enabled(h, s) {
      HubOthersKept(h, s.client, s.ids, c);
    } else if s.ResumeCommand? && Enabled(h, s) && s.fromSeq >= 0 {
      ReplayTouches(h.clients[s.client], h.ring, s.fromSeq, s.blocked, h.seqNo, 0);
    }
  }

  lemma AdvanceWithinLimit(h: Hub, c: nat, limit: nat)
    requires c < |h.clients| && h.clients[c].job.Some? && WithinLimit(h.clients[c], limit)
    ensures WithinLimit(AdvanceClient(h, c).clients[c], limit)
  {
    if h.clients[c].job.value.next < |h.clients[c].job.value.ids| {
      RecordWithinLimit(h.clients[c], limit);
    }
  }

  lemma StepWithinLimit(cfg: Config, h: Hub, s: Step, c: nat)
    requires c < |h.clients| && WithinLimit(h.clients[c], cfg.maxSubscriptions)
    ensures c < |Apply(cfg, h, s).clients| && WithinLimit(Apply(cfg, h, s).clients[c], cfg.maxSubscriptions)
  {
    ApplyKeepsClientCount(cfg, h, s);
    if !Enabled(h, s) {
    } else if s.Advance? && s.client == c {
      AdvanceWithinLimit(h, c, cfg.maxSubscriptions);
    } else if s.UnsubscribeCommand? && s.client == c {
      DropSubsShrinks(h, c, s.ids, cfg.maxSubscriptions);
    } else if s.SubscribeCommand? && s.client == c {
      assert s.ids[0..] == s.ids;
    } else {
      OtherStepsKeepSubs(cfg, h, s, c);
    }
  }

  lemma {:induction false} HubOthersKept(h: Hub, i: nat, ids: seq<string>, c: nat)
    requires i < |h.clients| && c < |h.clients| && c != i
    ensures DropSubs(h, i, ids).clients[c] == h.clients[c]
    decreases |ids|
  {
    if ids != [] {
      HubOthersKept(h, i, ids[..|ids| - 1], c);
    }
  }

  /** In every run, late steps included, no client ever holds more subscriptions than allowed, even
      though a command adds them one by one across suspensions. */
  lemma {:induction false} SubscriptionLimitHolds(cfg: Config, steps: seq<Step>, c: nat)
    requires c < |Run(cfg, steps).hub.clients|
    ensures WithinLimit(Run(cfg, steps).hub.clients[c], cfg.maxSubscriptions)
    decreases |steps|
  {
    if steps != [] {
      var before := steps[..|steps| - 1];
      var w := Run(cfg, before);
      ApplyKeepsClientCount(cfg, w.hub, steps[|steps| - 1]);
      if c < |w.hub.clients| {
        SubscriptionLimitHolds(cfg, before, c);
        StepWithinLimit(cfg, w.hub, steps[|steps| - 1], c);
      }
    }
  }
}
