/** The reference-counted pool of upstream connections (src/core/connection-pool.ts): reference
    counts, the `manual` pin flag and idle timers.  Timers live in the event loop, so the pool
    keeps the set of timers that have been armed and neither cleared nor fired; each will call
    `destroy` with the stream id it was armed for. */
module ConnectionPool {
  import opened Collections

  datatype EntryState = EntryState(refs: nat, manual: bool, idle: Option<nat>)

  datatype PoolState = PoolState(entries: map<string, EntryState>, timers: map<nat, string>, nextTimer: nat)

  const EMPTY := PoolState(map[], map[], 0)

  // ---------- the abstract operations ----------

  function Joined(p: PoolState, id: string, manual: bool): PoolState {
    if id in p.entries then p else p.(entries := p.entries[id := EntryState(0, manual, None)])
  }

  function Acquired(p: PoolState, id: string, manual: bool): PoolState {
    var q := Joined(p, id, manual);
    var e := q.entries[id];
    var live := if e.idle.Some? then q.timers - {e.idle.value} else q.timers;
    q.(entries := q.entries[id := EntryState(e.refs + 1, e.manual || manual, None)], timers := live)
  }

  function Released(p: PoolState, id: string): PoolState {
    if id !in p.entries then p else
    var e := p.entries[id];
    var left := if e.refs == 0 then 0 else e.refs - 1;
    if left == 0 && !e.manual then
      PoolState(p.entries[id := e.(refs := 0, idle := Some(p.nextTimer))],
                p.timers[p.nextTimer := id], p.nextTimer + 1)
    else
      p.(entries := p.entries[id := e.(refs := left)])
  }

  /** Timer t goes off: it destroys whatever entry its stream has now. */
  function Fired(p: PoolState, t: nat): PoolState
    requires t in p.timers
  {
    p.(entries := p.entries - {p.timers[t]}, timers := p.timers - {t})
  }

  function Pinned(p: PoolState, id: string): PoolState {
    if id !in p.entries then Released(Acquired(p, id, true), id)
    else p.(entries := p.entries[id := p.entries[id].(manual := true)])
  }

  function Refs(p: PoolState, id: string): nat {
    if id in p.entries then p.entries[id].refs else 0
  }

  // ---------- the lifetime invariant ----------

  /** Nothing is pinned, an idle timer is armed for an entry exactly when its count is zero, and
      the armed timers are exactly the ones the entries know about. */
  ghost predicate Sound(p: PoolState) {
    && (forall id :: id in p.entries ==>
          && !p.entries[id].manual
          && (p.entries[id].refs == 0 <==> p.entries[id].idle.Some?)
          && (p.entries[id].idle.Some? ==>
                p.entries[id].idle.value in p.timers && p.timers[p.entries[id].idle.value] == id))
    && (forall t :: t in p.timers ==>
          t < p.nextTimer && p.timers[t] in p.entries && p.entries[p.timers[t]].idle == Some(t))
  }

  lemma AcquireKeepsSound(p: PoolState, id: string)
    requires Sound(p)
    ensures Sound(Acquired(p, id, false))
    ensures forall x :: Refs(Acquired(p, id, false), x) == Refs(p, x) + if x == id then 1 else 0
  {
    var q := Acquired(p, id, false);
    forall t | t in q.timers
      ensures t < q.nextTimer && q.timers[t] in q.entries && q.entries[q.timers[t]].idle == Some(t)
    {
      assert p.timers[t] != id;
    }
  }

  /** A release keeps the invariant exactly when somebody holds the entry it releases; a surplus
      release on an idle entry arms a second timer that nothing can cancel. */
  lemma ReleaseKeepsSoundIff(p: PoolState, id: string)
    requires Sound(p)
    ensures Sound(Released(p, id)) <==> (id in p.entries ==> Refs(p, id) > 0)
    ensures forall x ::
              Refs(Released(p, id), x) == if x == id && Refs(p, x) > 0 then Refs(p, x) - 1 else Refs(p, x)
  {
    var q := Released(p, id);
    if id in p.entries {
      if p.entries[id].refs == 0 {
        var t := p.entries[id].idle.value;
        assert t in q.timers && q.entries[q.timers[t]].idle == Some(p.nextTimer);
      } else {
        forall t | t in q.timers
          ensures t < q.nextTimer && q.timers[t] in q.entries && q.entries[q.timers[t]].idle == Some(t)
        {
          assert t in p.timers ==> p.timers[t] != id;
        }
      }
    }
  }

  /** In a sound pool a timer only ever destroys an entry that nobody holds. */
  lemma FireIsHarmless(p: PoolState, t: nat)
    requires Sound(p) && t in p.timers
    ensures Sound(Fired(p, t))
    ensures Refs(p, p.timers[t]) == 0
    ensures forall x :: Refs(Fired(p, t), x) == Refs(p, x)
    ensures forall x :: x in p.entries && Refs(p, x) > 0 ==> x in Fired(p, t).entries
  {
    var q := Fired(p, t);
    forall u | u in q.timers
      ensures q.timers[u] in q.entries
    {
      assert p.entries[p.timers[u]].idle == Some(u);
    }
  }

  /** A timer is armed that would destroy the entry of this stream. */
  ghost predicate Doomed(p: PoolState, id: string) {
    id in p.entries && exists t :: t in p.timers && id !in Fired(p, t).entries
  }

  /** Pinning is outside the invariant.  The stream is pinned, but an armed timer still destroys it
      exactly when it was there and idle: pinning does not clear the timer of an idle entry. */
  lemma PinLeavesTimerArmedIff(p: PoolState, id: string)
    requires Sound(p)
    ensures id in Pinned(p, id).entries && Pinned(p, id).entries[id].manual
    ensures Doomed(Pinned(p, id), id) <==> id in p.entries && Refs(p, id) == 0
  {
    var q := Pinned(p, id);
    if id in p.entries && Refs(p, id) == 0 {
      var t := p.entries[id].idle.value;
      assert t in q.timers && id !in Fired(q, t).entries;
    }
    if t :| t in q.timers && id !in Fired(q, t).entries {
      assert t in p.timers && p.timers[t] == id;
      assert p.entries[id].idle == Some(t);
    }
  }

  // ---------- the pool object ----------

  class Entry {
    var refs: nat
    var manual: bool
    var idle: Option<nat>

    constructor (manual: bool)
      ensures View() == EntryState(0, manual, None)
    {
      this.refs, this.manual, this.idle := 0, manual, None;
    }

    /** One more holder: cancels the idle timer's handle and may pin the entry. */
    method Hold(manual: bool)
      modifies this
      ensures View() == EntryState(old(refs) + 1, old(this.manual) || manual, None)
    {
      idle := None;
      refs := refs + 1;
      if manual {
        this.manual := true;
      }
    }

    /** One holder less; an unpinned entry nobody holds gets the idle timer t. */
    method Drop(t: nat)
      modifies this
      ensures refs == (if old(refs) == 0 then 0 else old(refs) - 1) && manual == old(manual)
      ensures idle == if refs == 0 && !manual then Some(t) else old(idle)
    {
      refs := if refs == 0 then 0 else refs - 1;
      if refs == 0 && !manual {
        idle := Some(t);
      }
    }

    ghost function View(): EntryState
      reads this
    {
      EntryState(refs, manual, idle)
    }
  }

  class Pool {
    var entries: map<string, Entry>
    var timers: map<nat, string>
    var nextTimer: nat

    ghost predicate Valid()
      reads this
    {
      forall a, b :: a in entries && b in entries && a != b ==> entries[a] != entries[b]
    }

    ghost function EntryViews(): map<string, EntryState>
      reads `entries, entries.Values
    {
      map id | id in entries :: entries[id].View()
    }

    ghost function View(): PoolState
      reads this, entries.Values
    {
      PoolState(EntryViews(), timers, nextTimer)
    }

    /** Writing to the entry of id leaves the views of the others alone. */
    twostate lemma OthersUnchanged(id: string)
      requires Valid() && id in entries && entries == old(entries)
      requires forall x :: x in entries && x != id ==> unchanged(entries[x])
      ensures EntryViews() == old(EntryViews())[id := entries[id].View()]
    {
    }

    constructor ()
      ensures Valid() && View() == EMPTY && fresh(entries.Values)
    {
      entries, timers, nextTimer := map[], map[], 0;
    }

    /** The entry for id, created with no references if there is none. */
    method Join(id: string, manual: bool) returns (e: Entry)
      requires Valid()
      modifies this`entries
      ensures Valid() && id in entries && e == entries[id]
      ensures entries == old(entries)[id := e] && fresh(entries.Values - old(entries.Values))
      ensures View() == Joined(old(View()), id, manual)
    {
      if id in entries {
        e := entries[id];
      } else {
        e := new Entry(manual);
        entries := entries[id := e];
      }
      assert EntryViews() == Joined(old(View()), id, manual).entries;
    }

    /** One more holder of an entry that is there. */
    method Take(id: string, manual: bool)
      requires Valid() && id in entries
      modifies this`timers, entries[id]
      ensures entries == old(entries) && View() == Acquired(old(View()), id, manual)
    {
      ghost var goal := Acquired(View(), id, manual);
      var e := entries[id];
      if e.idle.Some? {
        timers := timers - {e.idle.value};
      }
      e.Hold(manual);
      OthersUnchanged(id);
      assert View() == goal;
    }

    method Acquire(id: string, manual: bool)
      requires Valid()
      modifies this, entries.Values
      ensures Valid() && fresh(entries.Values - old(entries.Values))
      ensures View() == Acquired(old(View()), id, manual)
    {
      var _ := Join(id, manual);
      Take(id, manual);
    }

    method Release(id: string)
      requires Valid()
      modifies this, entries.Values
      ensures Valid() && entries == old(entries)
      ensures View() == Released(old(View()), id)
    {
      if id !in entries {
        return;
      }
      var e := entries[id];
      e.Drop(nextTimer);
      OthersUnchanged(id);
      if e.refs == 0 && !e.manual {
        timers := timers[nextTimer := id];
        nextTimer := nextTimer + 1;
      }
    }

    method Pin(id: string)
      requires Valid()
      modifies this, entries.Values
      ensures Valid() && fresh(entries.Values - old(entries.Values))
      ensures View() == Pinned(old(View()), id)
    {
      if id !in entries {
        Acquire(id, true);
        Release(id);
      } else {
        entries[id].manual := true;
        assert View().entries == Pinned(old(View()), id).entries;
      }
    }

    /** The event loop runs timer t, whose callback is `destroy`. */
    method Fire(t: nat)
      requires Valid() && t in timers
      modifies this
      ensures Valid() && entries.Values <= old(entries.Values)
      ensures View() == Fired(old(View()), t)
    {
      entries := entries - {timers[t]};
      timers := timers - {t};
      assert View().entries == Fired(old(View()), t).entries;
    }
  }
}
