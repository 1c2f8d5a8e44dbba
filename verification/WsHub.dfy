/** The hub object itself (src/server/ws-hub.ts): the ring buffer, the per-connection state and the
    hub's methods, each shown to perform the corresponding step of `HubProtocol`. */
module WsHub {
  import opened Collections
  import P = HubProtocol
  import Pools = ConnectionPool

  type Sequenced = P.Sequenced

  /** Position i steps after `start`, around a buffer of the given size. */
  function Slot(start: nat, i: nat, size: nat): nat {
    if start + i < size then start + i else start + i - size
  }

  lemma ModuloOnce(x: nat, m: nat)
    requires 0 < m <= x < 2 * m
    ensures x % m == x - m
  {
    var q := x / m;
    assert x == q * m + x % m;
    assert q >= 2 ==> q * m >= 2 * m;
    assert q <= 0 ==> q * m <= 0;
  }

  lemma SlotIsModulo(start: nat, i: nat, size: nat)
    requires start < size && i <= size
    ensures (start + i) % size == Slot(start, i, size) < size
  {
    if start + i >= size {
      ModuloOnce(start + i, size);
    }
  }

  class ReplayRing {
    const capacity: nat
    const data: array<Option<Sequenced>>
    var start: nat
    var count: nat
    ghost var contents: seq<Sequenced>

    ghost predicate Valid()
      reads this, data
    {
      && data.Length == capacity && start < capacity && count <= capacity && count == |contents|
      && forall i :: 0 <= i < count ==> data[Slot(start, i, capacity)] == Some(contents[i])
    }

    constructor (capacity: nat)
      requires capacity >= 1
      ensures Valid() && contents == [] && this.capacity == capacity && fresh(data)
    {
      this.capacity := capacity;
      data := new Option<Sequenced>[capacity](_ => None);
      start, count, contents := 0, 0, [];
    }

    /** Stores at the free slot i after the last entry. */
    method Append(i: nat, v: Sequenced)
      requires Valid() && count < capacity && i == Slot(start, count, capacity)
      modifies this, data
      ensures Valid() && contents == old(contents) + [v]
    {
      ghost var was := contents;
      data[i] := Some(v);
      count := count + 1;
      contents := was + [v];
      forall j | 0 <= j < count ensures data[Slot(start, j, capacity)] == Some(contents[j]) {
        if j < |was| {
          assert Slot(start, j, capacity) != i && contents[j] == was[j];
        }
      }
    }

    /** Stores over the oldest entry, so that the next one is the oldest. */
    method Overwrite(next: nat, v: Sequenced)
      requires Valid() && count == capacity && next == Slot(start, 1, capacity)
      modifies this, data
      ensures Valid() && contents == (old(contents) + [v])[1..]
    {
      ghost var was, first := contents, start;
      data[start] := Some(v);
      start := next;
      contents := (was + [v])[1..];
      forall j | 0 <= j < count ensures data[Slot(start, j, capacity)] == Some(contents[j]) {
        if j < count - 1 {
          assert Slot(start, j, capacity) == Slot(first, j + 1, capacity) && contents[j] == was[j + 1];
        } else {
          assert Slot(start, j, capacity) == first && contents[j] == v;
        }
      }
    }

    method Push(v: Sequenced)
      requires Valid()
      modifies this, data
      ensures Valid() && contents == P.PushRing(old(contents), v, capacity)
    {
      SlotIsModulo(start, count, capacity);
      SlotIsModulo(start, 1, capacity);
      if count < capacity {
        Append((start + count) % capacity, v);
      } else {
        Overwrite((start + 1) % capacity, v);
      }
    }

    method Items() returns (out: seq<Sequenced>)
      requires Valid()
      ensures out == contents
    {
      out := [];
      for i := 0 to count
        invariant out == contents[..i]
      {
        SlotIsModulo(start, i, capacity);
        var v := data[(start + i) % capacity];
        if v.Some? {
          out := out + [v.value];
        }
      }
    }

    method OldestSeq(fallback: nat) returns (n: nat)
      requires Valid()
      ensures n == P.OldestSeq(contents, fallback)
    {
      n := fallback;
      if count > 0 && data[start].Some? {
        assert data[Slot(start, 0, capacity)] == Some(contents[0]);
        n := data[start].value.seqNo;
      }
    }
  }

  /** One connection: its socket phase, what was handed to the socket, and its `ClientState`. */
  class Subscriber {
    var phase: P.Phase
    var subs: Dict<string, P.Filter>
    var lastPongAt: int
    var gapFrom: Option<nat>
    var gapTo: Option<nat>
    var lastSeq: Option<nat>
    var job: Option<P.Job>
    var sent: seq<P.Frame>

    ghost function View(): P.Client
      reads this
    {
      P.Client(phase, subs, lastPongAt, gapFrom, gapTo, lastSeq, job, sent)
    }

    constructor (now: int, current: nat)
      ensures View() == P.Connected(now, current)
    {
      phase, subs, lastPongAt, job := P.Open, [], now, None;
      gapFrom, gapTo, lastSeq := None, None, None;
      sent := [P.Hello(current)];
    }

    method Send(f: P.Frame)
      modifies `sent
      ensures View() == P.Send(old(View()), f)
    {
      sent := sent + [f];
    }

    predicate Matches(e: P.Event)
      reads this
      ensures Matches(e) == P.Matches(View(), e)
    {
      var filter := Get(subs, e.streamerId);
      filter.Some? && P.MatchesFilter(filter.value, e)
    }

    method MarkGap(n: nat)
      modifies this
      ensures View() == P.MarkGap(old(View()), n)
    {
      if gapFrom.None? {
        gapFrom := Some(n);
      }
      gapTo := Some(n);
    }

    method FlushGap(current: nat)
      modifies this
      ensures View() == P.FlushGap(old(View()), current)
    {
      if gapFrom.None? {
        return;
      }
      var last := if gapTo.Some? then gapTo.value else gapFrom.value;
      Send(P.Gap(gapFrom.value, gapTo, last - gapFrom.value + 1, current));
      gapFrom, gapTo := None, None;
    }

    method Deliver(item: Sequenced, replayed: bool, current: nat)
      modifies this
      ensures View() == P.Deliver(old(View()), item, replayed, current)
    {
      FlushGap(current);
      Send(P.EventFrame(item.seqNo, replayed, item.event));
      lastSeq := Some(item.seqNo);
    }

    /** This connection's part of a broadcast. */
    method Offer(item: Sequenced, congested: bool)
      modifies this
      ensures View() == P.Offer(old(View()), item, congested)
    {
      if phase != P.Open || !Matches(item.event) {
        return;
      }
      if congested {
        MarkGap(item.seqNo);
      } else {
        Deliver(item, false, item.seqNo);
      }
    }

    /** This connection's part of a heartbeat. */
    method Beat(now: int, idleMs: int, congested: bool, current: nat)
      modifies this
      ensures View() == P.Beat(old(View()), now, idleMs, congested, current)
    {
      if phase != P.Open {
        return;
      }
      if now - lastPongAt > idleMs {
        phase := P.Closing;
        return;
      }
      if gapFrom.Some? && !congested {
        FlushGap(current);
      }
    }

    /** The loop of `resume` over the retained events. */
    method Replay(items: seq<Sequenced>, from: nat, blocked: set<nat>, current: nat) returns (replayed: nat)
      modifies this
      ensures (View(), replayed) == P.Replay(old(View()), items, from, blocked, current, 0)
    {
      replayed := 0;
      for i := 0 to |items|
        invariant P.Replay(View(), items[i..], from, blocked, current, replayed)
               == P.Replay(old(View()), items, from, blocked, current, 0)
      {
        assert items[i..][1..] == items[i + 1..];
        if items[i].seqNo <= from || !Matches(items[i].event) {
          continue;
        }
        if items[i].seqNo in blocked {
          MarkGap(items[i].seqNo);
          return;
        }
        Deliver(items[i], true, current);
        replayed := replayed + 1;
      }
    }

    /** The synchronous head of a subscribe command: the limit check. */
    method Subscribe(ids: seq<string>, filter: P.Filter, maxSubscriptions: nat)
      modifies this
      ensures View() == P.StartSubscribe(old(View()), ids, filter, maxSubscriptions)
    {
      if |subs| + P.NewIds(subs, ids) > maxSubscriptions {
        Send(P.SubscriptionLimit);
      } else {
        job := Some(P.Job(ids, 0, false, filter));
      }
    }

    method Resume(ring: ReplayRing, from: int, blocked: set<nat>, current: nat)
      requires ring.Valid()
      modifies this
      ensures View() == P.Resume(old(View()), ring.contents, from, blocked, current)
    {
      if from < 0 || from > P.MAX_SAFE_INTEGER {
        Send(P.InvalidFromSeq);
        return;
      }
      var oldest: int := ring.OldestSeq(current);
      if from < oldest - 1 {
        Send(P.ResumeUnavailable(from, oldest, current));
        return;
      }
      var items := ring.Items();
      var replayed := Replay(items, from, blocked, current);
      Send(P.Resumed(from, replayed, current));
    }
  }

  class Hub {
    const cfg: P.Config
    var seqNo: nat
    const replay: ReplayRing
    var clients: seq<Subscriber>
    const pool: Pools.Pool

    ghost predicate Valid()
      reads this, replay, replay.data, pool
    {
      && replay.Valid() && pool.Valid() && replay.capacity == cfg.replayEvents
      && forall i, j :: 0 <= i < j < |clients| ==> clients[i] != clients[j]
    }

    ghost function ClientViews(): (r: seq<P.Client>)
      reads `clients, clients
      ensures |r| == |clients| && forall i :: 0 <= i < |clients| ==> r[i] == clients[i].View()
    {
      var cs := clients;
      seq(|cs|, i requires 0 <= i < |cs| reads cs => cs[i].View())
    }

    ghost function View(): P.Hub
      reads this, replay, clients, pool, pool.entries.Values
    {
      P.Hub(seqNo, replay.contents, ClientViews(), pool.View())
    }

    /** Writing to client i leaves the views of the other clients alone. */
    twostate lemma OnlyClient(i: nat)
      requires old(Valid()) && clients == old(clients) && i < |clients|
      requires forall j :: 0 <= j < |clients| && j != i ==> unchanged(clients[j])
      ensures ClientViews() == old(ClientViews())[i := clients[i].View()]
    {
    }

    constructor (cfg: P.Config)
      requires cfg.replayEvents >= 1
      ensures Valid() && View() == P.START.hub && this.cfg == cfg
    {
      this.cfg := cfg;
      seqNo, clients := 0, [];
      replay := new ReplayRing(cfg.replayEvents);
      pool := new Pools.Pool();
    }

    method Connect(now: int)
      requires Valid()
      modifies `clients
      ensures Valid() && View() == P.Apply(cfg, old(View()), P.Connect(now))
    {
      var c := new Subscriber(now, seqNo);
      clients := clients + [c];
      assert ClientViews() == old(ClientViews()) + [P.Connected(now, seqNo)];
    }

    /** The loop of a broadcast over the connections. */
    method OfferAll(item: Sequenced, congested: set<nat>)
      requires Valid()
      modifies clients
      ensures ClientViews() == P.BroadcastTo(old(ClientViews()), item, congested)
    {
      ghost var before := ClientViews();
      for i := 0 to |clients|
        invariant forall j :: 0 <= j < i ==> clients[j].View() == P.Offer(before[j], item, j in congested)
        invariant forall j :: i <= j < |clients| ==> clients[j].View() == before[j]
      {
        clients[i].Offer(item, i in congested);
      }
      assert ClientViews() == P.BroadcastTo(before, item, congested);
    }

    /** Numbers an event and retains it. */
    method Record(e: P.Event) returns (item: Sequenced)
      requires Valid()
      modifies `seqNo, replay, replay.data
      ensures Valid() && item == P.Sequenced(old(seqNo) + 1, e)
      ensures View() == old(View()).(seqNo := item.seqNo, ring := P.PushRing(old(View()).ring, item, cfg.replayEvents))
    {
      seqNo := seqNo + 1;
      item := P.Sequenced(seqNo, e);
      replay.Push(item);
      assert ClientViews() == old(ClientViews());
    }

    method Broadcast(e: P.Event, congested: set<nat>)
      requires Valid()
      modifies `seqNo, replay, replay.data, clients
      ensures Valid() && View() == P.Apply(cfg, old(View()), P.Broadcast(e, congested))
    {
      ghost var h := View();
      var item := Record(e);
      assert ClientViews() == h.clients && pool.View() == h.pool;
      OfferAll(item, congested);
      assert pool.View() == h.pool && ClientViews() == P.BroadcastTo(h.clients, item, congested);
    }

    /** The loop of a heartbeat over the connections. */
    method BeatAll(now: int, congested: set<nat>)
      requires Valid()
      modifies clients
      ensures ClientViews() == P.BeatAll(old(ClientViews()), now, cfg.clientIdleMs, congested, seqNo)
    {
      ghost var before := ClientViews();
      for i := 0 to |clients|
        invariant forall j :: 0 <= j < i ==>
                  clients[j].View() == P.Beat(before[j], now, cfg.clientIdleMs, j in congested, seqNo)
        invariant forall j :: i <= j < |clients| ==> clients[j].View() == before[j]
      {
        clients[i].Beat(now, cfg.clientIdleMs, i in congested, seqNo);
      }
      assert ClientViews() == P.BeatAll(before, now, cfg.clientIdleMs, congested, seqNo);
    }

    method HeartbeatClients(now: int, congested: set<nat>)
      requires Valid()
      modifies clients
      ensures Valid() && View() == P.Apply(cfg, old(View()), P.Heartbeat(now, congested))
    {
      BeatAll(now, congested);
    }

    method Resume(i: nat, from: int, blocked: set<nat>)
      requires Valid() && i < |clients| && clients[i].job.None?
      modifies clients[i]
      ensures Valid() && View() == P.Apply(cfg, old(View()), P.ResumeCommand(i, from, blocked))
    {
      clients[i].Resume(replay, from, blocked, seqNo);
      OnlyClient(i);
    }

    method Subscribe(i: nat, ids: seq<string>, filter: P.Filter)
      requires Valid() && i < |clients| && clients[i].job.None? && NoDuplicates(ids)
      modifies clients[i]
      ensures Valid() && View() == P.Apply(cfg, old(View()), P.SubscribeCommand(i, ids, filter))
    {
      clients[i].Subscribe(ids, filter, cfg.maxSubscriptions);
      OnlyClient(i);
    }

    /** The command suspends in `acquire`, which has already counted it. */
    method Suspend(i: nat, id: string)
      requires Valid() && i < |clients| && clients[i].job.Some?
      modifies clients[i], pool, pool.entries.Values
      ensures Valid()
      ensures var c := old(clients[i].View());
              View() == P.SetClient(old(View()), i,
                  c.(job := Some(c.job.value.(awaiting := true)))).(pool := Pools.Acquired(old(pool.View()), id, false))
    {
      pool.Acquire(id, false);
      clients[i].job := Some(clients[i].job.value.(awaiting := true));
      OnlyClient(i);
    }

    /** The command resumes on a connection that is no longer open: give the reference back. */
    method Abandon(i: nat, id: string)
      requires Valid() && i < |clients|
      modifies clients[i], pool, pool.entries.Values
      ensures Valid()
      ensures View() == P.SetClient(old(View()), i,
              old(clients[i].View()).(job := None)).(pool := Pools.Released(old(pool.View()), id))
    {
      pool.Release(id);
      clients[i].job := None;
      OnlyClient(i);
    }

    /** The id was acquired, or is listed already: list it under the command's filter. */
    method Enlist(i: nat, job: P.Job)
      requires Valid() && i < |clients| && job.next < |job.ids|
      modifies clients[i]
      ensures Valid()
      ensures var c, id := old(clients[i].View()), job.ids[job.next];
              View() == P.SetClient(old(View()), i,
                  c.(subs := Put(c.subs, id, job.filter), job := Some(job.(next := job.next + 1, awaiting := false))))
    {
      clients[i].subs := Put(clients[i].subs, job.ids[job.next], job.filter);
      clients[i].job := Some(job.(next := job.next + 1, awaiting := false));
      OnlyClient(i);
    }

    /** All ids are done: answer the command. */
    method Finish(i: nat, ids: seq<string>)
      requires Valid() && i < |clients|
      modifies clients[i]
      ensures Valid()
      ensures View() == P.SetClient(old(View()), i,
              P.Send(old(clients[i].View()), P.Subscribed(ids, seqNo)).(job := None))
    {
      clients[i].Send(P.Subscribed(ids, seqNo));
      clients[i].job := None;
      OnlyClient(i);
    }

    /** One leg of the subscribe loop, up to the next suspension. */
    method Advance(i: nat)
      requires Valid() && i < |clients| && clients[i].job.Some?
      modifies clients[i], pool, pool.entries.Values
      ensures Valid() && View() == P.Apply(cfg, old(View()), P.Advance(i))
    {
      var c := clients[i];
      var job := c.job.value;
      if job.next >= |job.ids| {
        Finish(i, job.ids);
        return;
      }
      var id := job.ids[job.next];
      if !job.awaiting && !Has(c.subs, id) {
        Suspend(i, id);
      } else if job.awaiting && c.phase != P.Open {
        Abandon(i, id);
      } else {
        Enlist(i, job);
      }
    }

    /** Deletes one subscription, and releases it if it was there. */
    method DropSub(i: nat, id: string)
      requires Valid() && i < |clients|
      modifies clients[i], pool, pool.entries.Values
      ensures Valid() && pool.entries == old(pool.entries)
      ensures View() == P.DropSub(old(View()), i, id)
    {
      var c := clients[i];
      if Has(c.subs, id) {
        c.subs := Remove(c.subs, id);
        pool.Release(id);
      }
      OnlyClient(i);
    }

    /** The loop of an unsubscribe over its ids. */
    method DropSubs(i: nat, ids: seq<string>)
      requires Valid() && i < |clients|
      modifies clients[i], pool, pool.entries.Values
      ensures Valid() && pool.entries == old(pool.entries)
      ensures View() == P.DropSubs(old(View()), i, ids)
    {
      for k := 0 to |ids|
        invariant Valid() && pool.entries == old(pool.entries)
        invariant View() == P.DropSubs(old(View()), i, ids[..k])
      {
        DropSub(i, ids[k]);
        assert ids[..k + 1][..k] == ids[..k];
      }
      assert ids[..|ids|] == ids;
    }

    /** Answers an unsubscribe command. */
    method Confirm(i: nat, ids: seq<string>)
      requires Valid() && i < |clients|
      modifies clients[i]
      ensures Valid()
      ensures View() == P.SetClient(old(View()), i, P.Send(old(clients[i].View()), P.Unsubscribed(ids, seqNo)))
    {
      clients[i].Send(P.Unsubscribed(ids, seqNo));
      OnlyClient(i);
    }

    method Unsubscribe(i: nat, ids: seq<string>)
      requires Valid() && i < |clients| && clients[i].job.None? && NoDuplicates(ids)
      modifies clients[i], pool, pool.entries.Values
      ensures Valid() && View() == P.Apply(cfg, old(View()), P.UnsubscribeCommand(i, ids))
    {
      DropSubs(i, ids);
      Confirm(i, ids);
    }

    /** The socket stops being OPEN: the peer closes, or the heartbeat terminated it. */
    method Disconnect(i: nat)
      requires Valid() && i < |clients| && clients[i].phase == P.Open
      modifies clients[i]
      ensures Valid() && View() == P.Apply(cfg, old(View()), P.Disconnect(i))
    {
      clients[i].phase := P.Closing;
      OnlyClient(i);
    }

    /** Releases each of these streams. */
    method ReleaseAll(ids: seq<string>)
      requires Valid()
      modifies pool, pool.entries.Values
      ensures Valid() && pool.entries == old(pool.entries)
      ensures View() == old(View()).(pool := P.ReleaseAll(old(View()).pool, ids))
    {
      for k := 0 to |ids|
        invariant Valid() && pool.entries == old(pool.entries)
        invariant pool.View() == P.ReleaseAll(old(pool.View()), ids[..k])
      {
        pool.Release(ids[k]);
        assert ids[..k + 1][..k] == ids[..k];
      }
      assert ids[..|ids|] == ids;
    }

    /** The connection is out of the hub's list of open ones. */
    method MarkClosed(i: nat)
      requires Valid() && i < |clients|
      modifies clients[i]
      ensures Valid() && View() == P.SetClient(old(View()), i, old(clients[i].View()).(phase := P.Closed))
    {
      clients[i].phase := P.Closed;
      OnlyClient(i);
    }

    /** The close handler. */
    method OnClose(i: nat)
      requires Valid() && i < |clients| && clients[i].phase != P.Closed
      modifies clients[i], pool, pool.entries.Values
      ensures Valid() && View() == P.Apply(cfg, old(View()), P.CloseEvent(i))
    {
      MarkClosed(i);
      ReleaseAll(Keys(clients[i].subs));
    }

    method OnPong(i: nat, now: int)
      requires Valid() && i < |clients|
      modifies clients[i]
      ensures Valid() && View() == P.Apply(cfg, old(View()), P.Pong(i, now))
    {
      clients[i].lastPongAt := now;
      OnlyClient(i);
    }

    method FireTimer(t: nat)
      requires Valid() && t in pool.timers
      modifies pool
      ensures Valid() && View() == P.Apply(cfg, old(View()), P.FireTimer(t))
    {
      pool.Fire(t);
    }
  }
}
