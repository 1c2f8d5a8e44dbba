/** The downstream hub as a transition system (src/server/ws-hub.ts): the global sequence number,
    the replay ring, and for every connected client its filters, its pending gap and the frames
    handed to its socket.  `WsHub` shows that the hub object performs these steps. */
module HubProtocol {
  import opened Collections
  import Pool = ConnectionPool

  /** An event with the four names a filter can ask for; `baseName` is the catalog name of its code
      and `codeText` its code in decimal. */
  datatype Event = Event(streamerId: string, kind: string, baseName: string, codeText: string, category: string)

  datatype Filter = Everything | Named(names: set<string>)

  datatype Sequenced = Sequenced(seqNo: nat, event: Event)

  datatype Frame =
    | Hello(currentSeq: nat)
    | EventFrame(seqNo: nat, replayed: bool, event: Event)
    | Gap(fromSeq: nat, toSeq: Option<nat>, dropped: int, currentSeq: nat)
    | InvalidFromSeq
    | ResumeUnavailable(fromSeq: nat, oldestAvailableSeq: nat, currentSeq: nat)
    | Resumed(fromSeq: nat, replayedCount: nat, currentSeq: nat)
    | SubscriptionLimit
    | Subscribed(streamers: seq<string>, currentSeq: nat)
    | Unsubscribed(streamers: seq<string>, currentSeq: nat)

  /** `Closing` is any socket state other than OPEN before the close handler has run. */
  datatype Phase = Open | Closing | Closed

  /** A subscribe command in progress: it is working on `ids[next]`, and `awaiting` says that it is
      suspended in the pool's `acquire` for that id. */
  datatype Job = Job(ids: seq<string>, next: nat, awaiting: bool, filter: Filter)

  datatype Client = Client(phase: Phase, subs: Dict<string, Filter>, lastPongAt: int, gapFrom: Option<nat>,
                           gapTo: Option<nat>, lastSeq: Option<nat>, job: Option<Job>, sent: seq<Frame>)

  datatype Hub = Hub(seqNo: nat, ring: seq<Sequenced>, clients: seq<Client>, pool: Pool.PoolState)

  datatype Config = Config(replayEvents: nat, clientIdleMs: int, maxSubscriptions: nat)

  const MAX_SAFE_INTEGER := 0x1F_FFFF_FFFF_FFFF

  // ---------- one client ----------

  predicate MatchesFilter(filter: Filter, e: Event) {
    filter.Everything? || e.kind in filter.names || e.baseName in filter.names
    || e.codeText in filter.names || e.category in filter.names
  }

  predicate Matches(c: Client, e: Event) {
    var filter := Get(c.subs, e.streamerId);
    filter.Some? && MatchesFilter(filter.value, e)
  }

  function Send(c: Client, f: Frame): Client {
    c.(sent := c.sent + [f])
  }

  function MarkGap(c: Client, n: nat): Client {
    c.(gapFrom := if c.gapFrom.Some? then c.gapFrom else Some(n), gapTo := Some(n))
  }

  function FlushGap(c: Client, current: nat): Client {
    if c.gapFrom.None? then c else
    var from := c.gapFrom.value;
    var last := if c.gapTo.Some? then c.gapTo.value else from;
    Send(c, Gap(from, c.gapTo, last - from + 1, current)).(gapFrom := None, gapTo := None)
  }

  function Deliver(c: Client, item: Sequenced, replayed: bool, current: nat): Client {
    Send(FlushGap(c, current), EventFrame(item.seqNo, replayed, item.event)).(lastSeq := Some(item.seqNo))
  }

  /** What a broadcast does to one client; `congested` says that its socket is over the limit. */
  function Offer(c: Client, item: Sequenced, congested: bool): Client {
    if c.phase != Open || !Matches(c, item.event) then c
    else if congested then MarkGap(c, item.seqNo)
    else Deliver(c, item, false, item.seqNo)
  }

  /** What a heartbeat does to one client. */
  function Beat(c: Client, now: int, idleMs: int, congested: bool, current: nat): Client {
    if c.phase != Open then c
    else if now - c.lastPongAt > idleMs then c.(phase := Closing)
    else if c.gapFrom.Some? && !congested then FlushGap(c, current)
    else c
  }

  /** The replay loop of `resume`: `blocked` holds the sequence numbers at which the socket is found
      over its limit. */
  function Replay(c: Client, items: seq<Sequenced>, from: nat, blocked: set<nat>, current: nat, count: nat)
    : (Client, nat)
    decreases |items|
  {
    if items == [] then (c, count)
    else if items[0].seqNo <= from || !Matches(c, items[0].event) then
      Replay(c, items[1..], from, blocked, current, count)
    else if items[0].seqNo in blocked then (MarkGap(c, items[0].seqNo), count)
    else Replay(Deliver(c, items[0], true, current), items[1..], from, blocked, current, count + 1)
  }

  function OldestSeq(ring: seq<Sequenced>, fallback: nat): nat {
    if ring == [] then fallback else ring[0].seqNo
  }

  function Resume(c: Client, ring: seq<Sequenced>, from: int, blocked: set<nat>, current: nat): Client {
    if from < 0 || from > MAX_SAFE_INTEGER then Send(c, InvalidFromSeq)
    else
      var oldest := OldestSeq(ring, current);
      if from < oldest - 1 then Send(c, ResumeUnavailable(from, oldest, current))
      else
        var (c', count) := Replay(c, ring, from, blocked, current, 0);
        Send(c', Resumed(from, count, current))
  }

  function Connected(now: int, current: nat): Client {
    Client(Open, [], now, None, None, None, None, [Hello(current)])
  }

  // ---------- the hub ----------

  datatype Step =
    | Connect(now: int)
    | Pong(client: nat, now: int)
    | Broadcast(event: Event, congested: set<nat>)
    | Heartbeat(now: int, congested: set<nat>)
    | ResumeCommand(client: nat, fromSeq: int, blocked: set<nat>)
    | SubscribeCommand(client: nat, ids: seq<string>, filter: Filter)
    | Advance(client: nat)                             // a suspended subscribe command moves on
    | UnsubscribeCommand(client: nat, ids: seq<string>)
    | Disconnect(client: nat)                          // the socket stops being OPEN
    | CloseEvent(client: nat)                          // the close handler runs
    | FireTimer(timer: nat)

  /** When a step can happen.  Commands of one client are serialized by its queue, so a command
      starts only when no subscribe command of that client is suspended. */
  predicate Enabled(h: Hub, s: Step) {
    match s
    case Connect(_) => true
    case Broadcast(_, _) => true
    case Heartbeat(_, _) => true
    case Pong(c, _) => c < |h.clients|
    case ResumeCommand(c, _, _) => c < |h.clients| && h.clients[c].job.None?
    case SubscribeCommand(c, ids, _) => c < |h.clients| && h.clients[c].job.None? && NoDuplicates(ids)
    case Advance(c) => c < |h.clients| && h.clients[c].job.Some?
    case UnsubscribeCommand(c, ids) => c < |h.clients| && h.clients[c].job.None? && NoDuplicates(ids)
    case Disconnect(c) => c < |h.clients| && h.clients[c].phase == Open
    case CloseEvent(c) => c < |h.clients| && h.clients[c].phase != Closed
    case FireTimer(t) => t in h.pool.timers
  }

  function PushRing(ring: seq<Sequenced>, item: Sequenced, capacity: nat): seq<Sequenced> {
    if |ring| < capacity then ring + [item] else (ring + [item])[1..]
  }

  function BroadcastTo(clients: seq<Client>, item: Sequenced, congested: set<nat>): (r: seq<Client>)
    ensures |r| == |clients|
  {
    seq(|clients|, i requires 0 <= i < |clients| => Offer(clients[i], item, i in congested))
  }

  function BeatAll(clients: seq<Client>, now: int, idleMs: int, congested: set<nat>, current: nat): (r: seq<Client>)
    ensures |r| == |clients|
  {
    seq(|clients|, i requires 0 <= i < |clients| => Beat(clients[i], now, idleMs, i in congested, current))
  }

  /** How many of the ids are not subscribed yet. */
  function NewIds(subs: Dict<string, Filter>, ids: seq<string>): nat {
    if ids == [] then 0
    else (if Has(subs, ids[0]) then 0 else 1) + NewIds(subs, ids[1..])
  }

  function StartSubscribe(c: Client, ids: seq<string>, filter: Filter, maxSubscriptions: nat): Client {
    if |c.subs| + NewIds(c.subs, ids) > maxSubscriptions then Send(c, SubscriptionLimit)
    else c.(job := Some(Job(ids, 0, false, filter)))
  }

  /** One leg of the subscribe loop. */
  function AdvanceClient(h: Hub, i: nat): Hub
    requires i < |h.clients| && h.clients[i].job.Some?
  {
    var c := h.clients[i];
    var job := c.job.value;
    if job.next >= |job.ids| then
      h.(clients := h.clients[i := Send(c, Subscribed(job.ids, h.seqNo)).(job := None)])
    else
      var id := job.ids[job.next];
      var subscribed := c.(subs := Put(c.subs, id, job.filter),
          job := Some(job.(next := job.next + 1, awaiting := false)));
      if !job.awaiting then
        if Has(c.subs, id) then h.(clients := h.clients[i := subscribed])
        else h.(clients := h.clients[i := c.(job := Some(job.(awaiting := true)))],
            pool := Pool.Acquired(h.pool, id, false))
      else if c.phase != Open then
        h.(clients := h.clients[i := c.(job := None)], pool := Pool.Released(h.pool, id))
      else
        h.(clients := h.clients[i := subscribed])
  }

  function DropSub(h: Hub, i: nat, id: string): (r: Hub)
    requires i < |h.clients|
    ensures |r.clients| == |h.clients|
  {
    var c := h.clients[i];
    if Has(c.subs, id) then
      h.(clients := h.clients[i := c.(subs := Remove(c.subs, id))], pool := Pool.Released(h.pool, id))
    else h
  }

  function DropSubs(h: Hub, i: nat, ids: seq<string>): (r: Hub)
    requires i < |h.clients|
    ensures |r.clients| == |h.clients|
    decreases |ids|
  {
    if ids == [] then h else DropSub(DropSubs(h, i, ids[..|ids| - 1]), i, ids[|ids| - 1])
  }

  function ReleaseAll(p: Pool.PoolState, ids: seq<string>): Pool.PoolState
    decreases |ids|
  {
    if ids == [] then p else Pool.Released(ReleaseAll(p, ids[..|ids| - 1]), ids[|ids| - 1])
  }

  function SetClient(h: Hub, i: nat, c: Client): Hub
    requires i < |h.clients|
  {
    h.(clients := h.clients[i := c])
  }

  function BroadcastStep(cfg: Config, h: Hub, e: Event, congested: set<nat>): Hub {
    var item := Sequenced(h.seqNo + 1, e);
    Hub(item.seqNo, PushRing(h.ring, item, cfg.replayEvents), BroadcastTo(h.clients, item, congested), h.pool)
  }

  function HeartbeatStep(cfg: Config, h: Hub, now: int, congested: set<nat>): Hub {
    h.(clients := BeatAll(h.clients, now, cfg.clientIdleMs, congested, h.seqNo))
  }

  function UnsubscribeStep(h: Hub, i: nat, ids: seq<string>): Hub
    requires i < |h.clients|
  {
    var h' := DropSubs(h, i, ids);
    SetClient(h', i, Send(h'.clients[i], Unsubscribed(ids, h'.seqNo)))
  }

  /** The close handler releases what the client lists, and leaves the list as it is. */
  function CloseStep(h: Hub, i: nat): Hub
    requires i < |h.clients|
  {
    SetClient(h, i, h.clients[i].(phase := Closed)).(pool := ReleaseAll(h.pool, Keys(h.clients[i].subs)))
  }

  /** The effect of a step; a step that is not enabled does not happen. */
  function Apply(cfg: Config, h: Hub, s: Step): Hub {
    if !Enabled(h, s) then h else
    match s
    case Connect(now) => h.(clients := h.clients + [Connected(now, h.seqNo)])
    case Pong(i, now) => SetClient(h, i, h.clients[i].(lastPongAt := now))
    case Broadcast(e, congested) => BroadcastStep(cfg, h, e, congested)
    case Heartbeat(now, congested) => HeartbeatStep(cfg, h, now, congested)
    case ResumeCommand(i, from, blocked) =>
      SetClient(h, i, Resume(h.clients[i], h.ring, from, blocked, h.seqNo))
    case SubscribeCommand(i, ids, filter) =>
      SetClient(h, i, StartSubscribe(h.clients[i], ids, filter, cfg.maxSubscriptions))
    case Advance(i) => AdvanceClient(h, i)
    case UnsubscribeCommand(i, ids) => UnsubscribeStep(h, i, ids)
    case Disconnect(i) => SetClient(h, i, h.clients[i].(phase := Closing))
    case CloseEvent(i) => CloseStep(h, i)
    case FireTimer(t) => h.(pool := Pool.Fired(h.pool, t))
  }

  // ---------- runs, with what they owe ----------

  /** The hub with two histories it does not keep itself: every event ever broadcast, and for each
      client the events that matched its filter while it was open. */
  datatype World = World(hub: Hub, log: seq<Event>, owed: seq<seq<Sequenced>>)

  const START := World(Hub(0, [], [], Pool.EMPTY), [], [])

  function Owe(c: Client, item: Sequenced): seq<Sequenced> {
    if c.phase == Open && Matches(c, item.event) then [item] else []
  }

  function Next(cfg: Config, w: World, s: Step): World
    requires |w.owed| == |w.hub.clients|
  {
    var h := Apply(cfg, w.hub, s);
    match s
    case Connect(_) => World(h, w.log, w.owed + [[]])
    case Broadcast(e, _) =>
      var item := Sequenced(w.hub.seqNo + 1, e);
      World(h, w.log + [e],
            seq(|w.owed|, i requires 0 <= i < |w.owed| => w.owed[i] + Owe(w.hub.clients[i], item)))
    case _ => World(h, w.log, w.owed)
  }

  lemma ApplyKeepsClientCount(cfg: Config, h: Hub, s: Step)
    ensures |Apply(cfg, h, s).clients| == |h.clients| + if s.Connect? then 1 else 0
  {
  }

  function Run(cfg: Config, steps: seq<Step>): (w: World)
    ensures |w.owed| == |w.hub.clients|
    decreases |steps|
  {
    if steps == [] then START
    else
      var w := Run(cfg, steps[..|steps| - 1]);
      var s := steps[|steps| - 1];
      ApplyKeepsClientCount(cfg, w.hub, s);
      Next(cfg, w, s)
  }

  lemma {:induction false} RunNext(cfg: Config, steps: seq<Step>, s: Step)
    ensures Run(cfg, steps + [s]) == Next(cfg, Run(cfg, steps), s)
  {
    assert (steps + [s])[..|steps|] == steps;
  }
}
