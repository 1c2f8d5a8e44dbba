/** Pinning in the pool of src/core/connection-pool.ts over whole runs: which streams are pinned,
    read off the calls alone, and when a pin keeps its stream for ever. */
module PoolPins {
  import opened Collections
  import opened ConnectionPool

  datatype Use = Acquire(id: string, manual: bool) | Release(id: string) | Pin(id: string) | Fire(timer: nat)

  /** A timer that is not armed does not go off. */
  function Used(p: PoolState, u: Use): PoolState {
    match u
    case Acquire(id, manual) => Acquired(p, id, manual)
    case Release(id) => Released(p, id)
    case Pin(id) => Pinned(p, id)
    case Fire(t) => if t in p.timers then Fired(p, t) else p
  }

  function From(p: PoolState, uses: seq<Use>): PoolState
    decreases |uses|
  {
    if uses == [] then p else Used(From(p, uses[..|uses| - 1]), uses[|uses| - 1])
  }

  /** This use asks for id to be pinned. */
  predicate AsksPin(u: Use, id: string) {
    u == Pin(id) || u == Acquire(id, true)
  }

  /** This use, in state p, ends the entry of id. */
  predicate Ends(p: PoolState, u: Use, id: string) {
    u.Fire? && u.timer in p.timers && p.timers[u.timer] == id
  }

  /** Some use asked for the pin, and the entry has not ended since. */
  predicate AskedFor(uses: seq<Use>, id: string)
    decreases |uses|
  {
    uses != [] &&
    var before, u := uses[..|uses| - 1], uses[|uses| - 1];
    AsksPin(u, id) || (AskedFor(before, id) && !Ends(From(EMPTY, before), u, id))
  }

  predicate IsPinned(p: PoolState, id: string) {
    id in p.entries && p.entries[id].manual
  }

  /** Over every run a stream is pinned exactly when a call since its entry was last destroyed asked
      for it; acquiring without asking and releasing never unpin it. */
  lemma {:induction false} PinnedMeans(uses: seq<Use>, id: string)
    ensures IsPinned(From(EMPTY, uses), id) <==> AskedFor(uses, id)
  {
    if uses != [] {
      PinnedMeans(uses[..|uses| - 1], id);
    }
  }

  lemma PinStays(p: PoolState, u: Use, id: string)
    requires IsPinned(p, id) && !Doomed(p, id)
    ensures IsPinned(Used(p, u), id) && !Doomed(Used(p, u), id)
  {
    var q := Used(p, u);
    forall t | t in p.timers
      ensures p.timers[t] != id
    {
      assert id in Fired(p, t).entries;
    }
  }

  lemma {:induction false} PinStaysOn(p: PoolState, uses: seq<Use>, id: string)
    requires IsPinned(p, id) && !Doomed(p, id)
    ensures IsPinned(From(p, uses), id) && !Doomed(From(p, uses), id)
    decreases |uses|
  {
    if uses != [] {
      PinStaysOn(p, uses[..|uses| - 1], id);
      PinStays(From(p, uses[..|uses| - 1]), uses[|uses| - 1], id);
    }
  }

  predicate Lives(p: PoolState, uses: seq<Use>, id: string) {
    id in From(p, uses).entries
  }

  lemma OldTimerEnds(p: PoolState, t: nat, id: string)
    requires t in p.timers && id !in Fired(p, t).entries
    ensures !Lives(p, [Fire(t)], id)
  {
    var uses := [Fire(t)];
    assert uses[..0] == [];
    assert From(p, uses) == Used(From(p, []), Fire(t));
  }

  /** A pinned stream outlives every later run exactly when no timer armed earlier can still destroy
      it: pinning prevents new timers and stops no old one. */
  lemma PinHoldsIff(p: PoolState, id: string)
    requires IsPinned(p, id)
    ensures (forall uses :: Lives(p, uses, id)) <==> !Doomed(p, id)
  {
    if Doomed(p, id) {
      var t :| t in p.timers && id !in Fired(p, t).entries;
      OldTimerEnds(p, t, id);
    } else {
      forall uses: seq<Use>
        ensures Lives(p, uses, id)
      {
        PinStaysOn(p, uses, id);
      }
    }
  }
}
