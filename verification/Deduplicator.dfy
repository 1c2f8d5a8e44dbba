/** The deduplicator object (src/core/deduplicator.ts): occurrences are objects changed where they
    stand, and the map, its lists and the entry count are updated as the loops go. */
module Deduplicator {
  import opened Collections
  import opened Sorting
  import opened Deduplication
  import opened DedupPruning

  class Node {
    const serial: nat
    const createdAt: int
    const providerEventId: Option<string>
    var sources: map<string, int>
    var lastSeen: int

    ghost function View(): Occurrence
      reads this
    {
      Occurrence(serial, sources, createdAt, lastSeen, providerEventId)
    }

    constructor (e: Event, now: int, given: nat)
      ensures View() == Created(e, now, given)
    {
      serial := given;
      createdAt := now;
      providerEventId := e.providerEventId;
      sources := map[e.source := now];
      lastSeen := now;
    }

    method Refresh(source: string, now: int)
      modifies this
      ensures View() == Touch(old(View()), source, now)
    {
      sources := sources[source := now];
      lastSeen := now;
    }
  }

  type Table = Dict<Key, seq<Node>>

  // ---------- reading objects through a record of their fields ----------

  /** The fields of every object, as the object that owns them last wrote them. */
  type Record = map<Node, Occurrence>

  ghost function Seen(n: Node, record: Record): Occurrence {
    if n in record then record[n] else Occurrence(n.serial, map[], n.createdAt, n.createdAt, n.providerEventId)
  }

  ghost function SeenList(list: seq<Node>, record: Record): (r: seq<Occurrence>)
    ensures |r| == |list| && forall i :: 0 <= i < |list| ==> r[i] == Seen(list[i], record)
  {
    seq(|list|, i requires 0 <= i < |list| => Seen(list[i], record))
  }

  ghost function SeenAll(m: Table, record: Record): (r: Dict<Key, seq<Occurrence>>)
    ensures |r| == |m| && forall i :: 0 <= i < |m| ==> r[i] == (m[i].0, SeenList(m[i].1, record))
  {
    seq(|m|, i requires 0 <= i < |m| => (m[i].0, SeenList(m[i].1, record)))
  }

  ghost predicate Current(list: seq<Node>, record: Record)
    reads list
  {
    forall n :: n in list ==> Seen(n, record) == n.View()
  }

  // ---------- positions ----------

  lemma SeenAllIndex(m: Table, record: Record, k: Key)
    ensures IndexOf(SeenAll(m, record), k) == IndexOf(m, k)
  {
    var i, j := IndexOf(SeenAll(m, record), k), IndexOf(m, k);
    assert i < |m| ==> m[i].0 == k;
    assert j < |m| ==> SeenAll(m, record)[j].0 == k;
  }

  lemma {:induction false} TimesAtMostOnce(list: seq<Occurrence>, i: nat, j: nat)
    requires i < j < |list| && list[i].serial == list[j].serial
    ensures Times(list, list[i].serial) >= 2
    decreases |list|
  {
    if j < |list| - 1 {
      TimesAtMostOnce(list[..|list| - 1], i, j);
    } else {
      ListedTimes(list[..|list| - 1], i);
    }
  }

  lemma {:induction false} TimesInTotal(m: Dict<Key, seq<Occurrence>>, i: nat, j: nat)
    requires i < |m| && j < |m[i].1|
    ensures Times(Flatten(m), m[i].1[j].serial) >= 1
    decreases |m|
  {
    var n := |m| - 1;
    TimesConcat(Flatten(m[..n]), m[n].1, m[i].1[j].serial);
    if i < n {
      TimesInTotal(m[..n], i, j);
    } else {
      ListedTimes(m[i].1, j);
    }
  }

  /** A serial stands at one place only. */
  lemma OnePlace(m: Dict<Key, seq<Occurrence>>, calls: nat, i: nat, j: nat, i': nat, j': nat)
    requires Numbered(Flatten(m), calls)
    requires i < |m| && j < |m[i].1| && i' < |m| && j' < |m[i'].1| && m[i].1[j].serial == m[i'].1[j'].serial
    ensures i == i' && j == j'
  {
    var x := m[i].1[j].serial;
    var rest := m[i := (m[i].0, [])];
    TimesUpdate(m, i, m[i].0, [], x);
    ListedTimes(m[i].1, j);
    if i' != i {
      TimesInTotal(rest, i', j');
    } else if j < j' {
      TimesAtMostOnce(m[i].1, j, j');
    } else if j' < j {
      TimesAtMostOnce(m[i].1, j', j);
    }
  }

  // ---------- searching ----------

  lemma {:induction false} TouchLastAt(list: seq<Occurrence>, w: Wanted, source: string, now: int, ttlMs: nat, i: nat)
    requires i < |list| && Fits(w, list[i], now, ttlMs) && forall j :: i < j < |list| ==> !Fits(w, list[j], now, ttlMs)
    ensures TouchLast(list, w, source, now, ttlMs) == Some(list[i := Touch(list[i], source, now)])
    decreases |list|
  {
    var init := list[..|list| - 1];
    if i < |init| {
      TouchLastAt(init, w, source, now, ttlMs, i);
      assert list[i := Touch(list[i], source, now)] == init[i := Touch(init[i], source, now)] + [list[|init|]];
    } else {
      assert list[i := Touch(list[i], source, now)] == init + [Touch(list[i], source, now)];
    }
  }

  lemma {:induction false} TouchLastNone(list: seq<Occurrence>, w: Wanted, source: string, now: int, ttlMs: nat)
    requires forall j :: 0 <= j < |list| ==> !Fits(w, list[j], now, ttlMs)
    ensures TouchLast(list, w, source, now, ttlMs) == None
    decreases |list|
  {
    if list != [] {
      TouchLastNone(list[..|list| - 1], w, source, now, ttlMs);
    }
  }

  method Matches(w: Wanted, o: Node, now: int, ttlMs: nat) returns (r: bool)
    ensures r == Fits(w, o.View(), now, ttlMs)
  {
    if now - o.lastSeen > ttlMs {
      return false;
    }
    match w
    case Exact(id) => r := o.providerEventId == id;
    case Unseen(source) => r := source !in o.sources;
  }

  /** Looks for the last occurrence that fits; |list| when there is none. */
  method FindLast(list: seq<Node>, w: Wanted, source: string, now: int, ttlMs: nat, ghost record: Record)
    returns (i: nat)
    requires Current(list, record)
    ensures i <= |list|
    ensures var all := SeenList(list, record);
            TouchLast(all, w, source, now, ttlMs) == if i < |list| then Some(all[i := Touch(all[i], source, now)])
                else None
  {
    ghost var all := SeenList(list, record);
    i := |list|;
    while i > 0
      invariant i <= |list|
      invariant forall j :: i <= j < |list| ==> !Fits(w, all[j], now, ttlMs)
    {
      i := i - 1;
      var fits := Matches(w, list[i], now, ttlMs);
      if fits {
        TouchLastAt(all, w, source, now, ttlMs, i);
        return;
      }
    }
    TouchLastNone(all, w, source, now, ttlMs);
    i := |list|;
  }

  // ---------- filtering ----------

  /** The objects a filter leaves. */
  ghost function KeptNodes(list: seq<Node>, rule: Rule, record: Record): seq<Node>
    decreases |list|
  {
    if list == [] then []
    else
      var last := list[|list| - 1];
      KeptNodes(list[..|list| - 1], rule, record) + if Keeps(rule, Seen(last, record)) then [last] else []
  }

  lemma SeenListSnoc(init: seq<Node>, last: Node, record: Record)
    ensures SeenList(init + [last], record) == SeenList(init, record) + [Seen(last, record)]
  {
  }

  lemma {:induction false} KeptNodesSeen(list: seq<Node>, rule: Rule, record: Record)
    ensures SeenList(KeptNodes(list, rule, record), record) == Kept(SeenList(list, record), rule)
    decreases |list|
  {
    if list != [] {
      var init, last := list[..|list| - 1], list[|list| - 1];
      KeptNodesSeen(init, rule, record);
      assert list == init + [last];
      SeenListSnoc(init, last, record);
      KeptSnoc(SeenList(init, record), Seen(last, record), rule);
      SeenListSnoc(KeptNodes(init, rule, record), last, record);
    }
  }

  lemma {:induction false} KeptNodesIn(list: seq<Node>, rule: Rule, record: Record)
    requires AllIn(list, record)
    ensures AllIn(KeptNodes(list, rule, record), record)
    decreases |list|
  {
    if list != [] {
      KeptNodesIn(list[..|list| - 1], rule, record);
    }
  }

  method KeepsNode(rule: Rule, o: Node) returns (r: bool)
    ensures r == Keeps(rule, o.View())
  {
    match rule
    case SeenSince(cutoff) => r := o.lastSeen >= cutoff;
    case NotAmong(serials) => r := o.serial !in serials;
  }

  method Filter(list: seq<Node>, rule: Rule, ghost record: Record) returns (kept: seq<Node>)
    requires Current(list, record)
    ensures kept == KeptNodes(list, rule, record)
  {
    kept := [];
    for i := 0 to |list|
      invariant kept == KeptNodes(list[..i], rule, record)
    {
      var keep := KeepsNode(rule, list[i]);
      assert list[..i + 1] == list[..i] + [list[i]];
      if keep {
        kept := kept + [list[i]];
      }
    }
    assert list[..|list|] == list;
  }

  /** The table a filter leaves. */
  ghost function KeptTable(m: Table, rule: Rule, record: Record): Table
    decreases |m|
  {
    if m == [] then []
    else
      var kept := KeptNodes(m[|m| - 1].1, rule, record);
      KeptTable(m[..|m| - 1], rule, record) + if kept != [] then [(m[|m| - 1].0, kept)] else []
  }

  lemma KeptTableSnoc(init: Table, k: Key, list: seq<Node>, rule: Rule, record: Record)
    ensures var kept := KeptNodes(list, rule, record);
            KeptTable(init + [(k, list)], rule, record) ==
            if kept != [] then KeptTable(init, rule, record) + [(k, kept)] else KeptTable(init, rule, record)
  {
    assert (init + [(k, list)])[..|init|] == init;
    assert KeptTable(init, rule, record) + [] == KeptTable(init, rule, record);
  }

  lemma SeenAllSnoc(init: Table, k: Key, list: seq<Node>, record: Record)
    ensures SeenAll(init + [(k, list)], record) == SeenAll(init, record) + [(k, SeenList(list, record))]
    ensures Total(SeenAll(init + [(k, list)], record)) == Total(SeenAll(init, record)) + |list|
  {
    assert SeenAll(init + [(k, list)], record) == SeenAll(init, record) + [(k, SeenList(list, record))];
    FlattenAppend(SeenAll(init, record), k, SeenList(list, record));
  }

  lemma {:induction false} KeptAllSnoc(init: Dict<Key, seq<Occurrence>>, k: Key, list: seq<Occurrence>, rule: Rule)
    ensures KeptAll(init + [(k, list)], rule) ==
            if Kept(list, rule) != [] then KeptAll(init, rule) + [(k, Kept(list, rule))] else KeptAll(init, rule)
  {
    assert (init + [(k, list)])[..|init|] == init;
    assert KeptAll(init, rule) + [] == KeptAll(init, rule);
  }

  lemma {:induction false} KeptTableSeenNext(init: Table, k: Key, list: seq<Node>, rule: Rule, record: Record)
    requires SeenAll(KeptTable(init, rule, record), record) == KeptAll(SeenAll(init, record), rule)
    ensures SeenAll(KeptTable(init + [(k, list)], rule, record), record)
            == KeptAll(SeenAll(init + [(k, list)], record), rule)
  {
    KeptTableSnoc(init, k, list, rule, record);
    SeenAllSnoc(init, k, list, record);
    KeptNodesSeen(list, rule, record);
    SeenAllSnoc(KeptTable(init, rule, record), k, KeptNodes(list, rule, record), record);
    KeptAllSnoc(SeenAll(init, record), k, SeenList(list, record), rule);
  }

  lemma {:induction false} KeptTableSeen(m: Table, rule: Rule, record: Record)
    ensures SeenAll(KeptTable(m, rule, record), record) == KeptAll(SeenAll(m, record), rule)
    decreases |m|
  {
    if m != [] {
      var init := m[..|m| - 1];
      assert m == init + [m[|m| - 1]];
      KeptTableSeen(init, rule, record);
      KeptTableSeenNext(init, m[|m| - 1].0, m[|m| - 1].1, rule, record);
    }
  }

  /** How many occurrences a filter takes off the count. */
  ghost function Lost(m: Table, rule: Rule, record: Record): int
    decreases |m|
  {
    if m == [] then 0
    else Lost(m[..|m| - 1], rule, record) + |m[|m| - 1].1| - |KeptNodes(m[|m| - 1].1, rule, record)|
  }

  lemma LostSnoc(init: Table, k: Key, list: seq<Node>, rule: Rule, record: Record)
    ensures Lost(init + [(k, list)], rule, record)
            == Lost(init, rule, record) + |list| - |KeptNodes(list, rule, record)|
  {
    assert (init + [(k, list)])[..|init|] == init;
  }

  lemma {:induction false} LostIsDifference(m: Table, rule: Rule, record: Record)
    ensures Lost(m, rule, record) == Total(SeenAll(m, record)) - Total(SeenAll(KeptTable(m, rule, record), record))
    decreases |m|
  {
    if m != [] {
      var init := m[..|m| - 1];
      var (k, list) := m[|m| - 1];
      LostIsDifference(init, rule, record);
      assert m == init + [(k, list)];
      KeptTableSnoc(init, k, list, rule, record);
      SeenAllSnoc(init, k, list, record);
      SeenAllSnoc(KeptTable(init, rule, record), k, KeptNodes(list, rule, record), record);
    }
  }

  /** Every listed object has its fields recorded. */
  ghost predicate Covered(m: Table, record: Record) {
    forall i :: 0 <= i < |m| ==> AllIn(m[i].1, record)
  }

  ghost predicate AllIn(list: seq<Node>, record: Record) {
    forall n :: n in list ==> n in record
  }

  lemma {:induction false} KeptTableCovered(m: Table, rule: Rule, record: Record)
    requires Covered(m, record)
    ensures Covered(KeptTable(m, rule, record), record)
    decreases |m|
  {
    if m != [] {
      KeptTableCovered(m[..|m| - 1], rule, record);
      KeptNodesIn(m[|m| - 1].1, rule, record);
    }
  }

  // ---------- ranking ----------

  method RankList(list: seq<Node>, ghost record: Record) returns (ranks: seq<Keyed<nat>>)
    requires Current(list, record)
    ensures ranks == Ranked(SeenList(list, record))
  {
    ranks := [];
    ghost var all := SeenList(list, record);
    for i := 0 to |list|
      invariant ranks == Ranked(all)[..i]
    {
      assert all[i] == list[i].View();
      ranks := ranks + [Keyed(list[i].lastSeen as real, list[i].serial)];
    }
  }

  lemma RanksSnoc(init: Table, k: Key, list: seq<Node>, record: Record)
    ensures Ranked(Flatten(SeenAll(init + [(k, list)], record)))
         == Ranked(Flatten(SeenAll(init, record))) + Ranked(SeenList(list, record))
  {
    SeenAllSnoc(init, k, list, record);
    FlattenAppend(SeenAll(init, record), k, SeenList(list, record));
  }

  // ---------- writing one object ----------

  /** The record never disagrees with an object about its serial. */
  ghost predicate SerialsRight(record: Record) {
    forall n :: n in record ==> record[n].serial == n.serial
  }

  /** Writing one object changes one place of the table. */
  lemma WriteOne(m: Table, record: Record, calls: nat, at: nat, i: nat, o: Occurrence)
    requires at < |m| && i < |m[at].1| && SerialsRight(record) && Numbered(Flatten(SeenAll(m, record)), calls)
    ensures SeenAll(m, record[m[at].1[i] := o])
            == SeenAll(m, record)[at := (m[at].0, SeenList(m[at].1, record)[i := o])]
  {
    var n := m[at].1[i];
    var all := SeenAll(m, record);
    forall a | 0 <= a < |m|
      ensures SeenList(m[a].1, record[n := o]) == if a == at then SeenList(m[at].1, record)[i := o]
              else SeenList(m[a].1, record)
    {
      forall b | 0 <= b < |m[a].1| && m[a].1[b] == n ensures a == at && b == i {
        OnePlace(all, calls, at, i, a, b);
      }
    }
  }

  /** A new object at the end of a list leaves the others as they were. */
  lemma AddOne(m: Table, record: Record, k: Key, n: Node, o: Occurrence)
    requires Covered(m, record) && n !in record
    ensures var at := IndexOf(m, k);
            var list := if at < |m| then m[at].1 else [];
            SeenAll(Put(m, k, list + [n]), record[n := o]) == Put(SeenAll(m, record), k, SeenList(list, record) + [o])
  {
    var record' := record[n := o];
    var at := IndexOf(m, k);
    SeenAllIndex(m, record, k);
    forall a | 0 <= a < |m| ensures SeenList(m[a].1, record') == SeenList(m[a].1, record) {
      assert AllIn(m[a].1, record);
    }
    var list := if at < |m| then m[at].1 else [];
    SeenListSnoc(list, n, record');
  }

  class EventDeduplicator {
    const cfg: Config
    var occurrences: Table
    var entryCount: int
    var lastPruneAt: int
    var calls: nat
    ghost var record: Record

    ghost function View(): State
      reads this
    {
      State(SeenAll(occurrences, record), entryCount, lastPruneAt, calls)
    }

    /** The record is right about every listed object. */
    ghost predicate Recorded()
      reads this, record.Keys
    {
      && (forall n :: n in record ==> record[n] == n.View())
      && Covered(occurrences, record)
    }

    /** The count is right too, and every occurrence is an object of its own. */
    ghost predicate Valid()
      reads this, record.Keys
    {
      Recorded() && Accounted(View())
    }

    constructor (ttlMs: nat, maxEntries: nat)
      ensures Valid() && View() == START && record == map[] && cfg == Config(ttlMs, maxEntries)
    {
      cfg := Config(ttlMs, maxEntries);
      occurrences, entryCount, lastPruneAt, calls, record := [], 0, 0, 0, map[];
    }

    /** One of the two filtering loops of a prune. */
    method KeepOnly(rule: Rule)
      requires Recorded()
      modifies this`occurrences, this`entryCount
      ensures Recorded() && View() == Deduplication.KeptOnly(old(View()), rule)
    {
      ghost var was := occurrences;
      KeepTable(rule);
      KeptTableSeen(was, rule, record);
      LostIsDifference(was, rule, record);
      KeptTableCovered(was, rule, record);
    }

    method KeepTable(rule: Rule)
      requires Recorded()
      modifies this`occurrences, this`entryCount
      ensures occurrences == KeptTable(old(occurrences), rule, record)
      ensures entryCount == old(entryCount) - Lost(old(occurrences), rule, record)
    {
      ghost var was, count := occurrences, entryCount;
      ghost var front, kept, rest := [], [], occurrences;
      var i := 0;
      while i < |occurrences|
        invariant was == front + rest && kept == KeptTable(front, rule, record) && Covered(rest, record)
        invariant occurrences == kept + rest && i == |kept|
        invariant entryCount == count - Lost(front, rule, record)
        decreases |rest|
      {
        ghost var (k, list) := rest[0];
        ghost var front' := front + [(k, list)];
        TakeOne(rest, kept, record);
        TakeOne(rest, front, record);
        LostSnoc(front, k, list, rule, record);
        KeptTableSnoc(front, k, list, rule, record);
        i := KeepAt(i, rule, kept, k, list, rest[1..]);
        front, kept, rest := front', KeptTable(front', rule, record), rest[1..];
      }
      assert rest == [] && front == was && kept == occurrences;
    }

    /** One turn of that loop: filters the list at position i, between what is done and what is not. */
    method KeepAt(i: nat, rule: Rule, ghost done: Table, ghost k: Key, ghost list: seq<Node>, ghost rest: Table)
      returns (next: nat)
      requires i == |done| && occurrences == done + [(k, list)] + rest && Current(list, record)
      modifies this`occurrences, this`entryCount
      ensures var kept := KeptNodes(list, rule, record);
              && occurrences == (if kept != [] then done + [(k, kept)] else done) + rest
              && next == (if kept != [] then i + 1 else i)
              && entryCount == old(entryCount) - (|list| - |kept|)
    {
      var (key, members) := occurrences[i];
      var kept := Filter(members, rule, record);
      entryCount := entryCount - (|members| - |kept|);
      if kept != [] {
        occurrences := occurrences[i := (key, kept)];
        next := i + 1;
      } else {
        occurrences := occurrences[..i] + occurrences[i + 1..];
        next := i;
      }
    }

    method Ranks() returns (ranks: seq<Keyed<nat>>)
      requires Recorded()
      ensures ranks == Ranked(Flatten(SeenAll(occurrences, record)))
    {
      ranks := [];
      for i := 0 to |occurrences|
        invariant ranks == Ranked(Flatten(SeenAll(occurrences[..i], record)))
      {
        var (k, list) := occurrences[i];
        assert AllIn(list, record);
        var more := RankList(list, record);
        assert occurrences[..i + 1] == occurrences[..i] + [(k, list)];
        RanksSnoc(occurrences[..i], k, list, record);
        ranks := ranks + more;
      }
      assert occurrences[..|occurrences|] == occurrences;
    }

    method Prune(now: int)
      requires Recorded()
      modifies this`occurrences, this`entryCount
      ensures Recorded() && View() == Pruned(cfg, old(View()), now)
    {
      if entryCount <= cfg.maxEntries && entryCount < 1000 {
        return;
      }
      KeepOnly(SeenSince(now - cfg.ttlMs));
      if entryCount <= cfg.maxEntries {
        return;
      }
      var ranks := Ranks();
      KeepOnly(NotAmong(Items(Sort(ranks), Excess(entryCount, cfg.maxEntries))));
    }

    /** Matches an event to the object at place i of the list at place `at`. */
    method Suppress(at: nat, i: nat, source: string, now: int)
      requires Valid() && at < |occurrences| && i < |occurrences[at].1|
      modifies this`record, occurrences[at].1[i]
      ensures Recorded() && record.Keys == old(record.Keys)
      ensures var all := old(SeenAll(occurrences, record));
              SeenAll(occurrences, record) == all[at := (all[at].0, all[at].1[i := Touch(all[at].1[i], source, now)])]
    {
      var n := occurrences[at].1[i];
      assert AllIn(occurrences[at].1, record) && SerialsRight(record);
      ghost var o := Touch(record[n], source, now);
      WriteOne(occurrences, record, calls, at, i, o);
      n.Refresh(source, now);
      record := record[n := o];
      CoveredLater(occurrences, old(record), record);
    }

    /** Accepts an event as a new occurrence. */
    method Create(e: Event, now: int, k: Key)
      requires Recorded()
      modifies this`occurrences, this`record
      ensures Recorded() && record.Keys >= old(record.Keys) && fresh(record.Keys - old(record.Keys))
      ensures var all := old(SeenAll(occurrences, record));
              SeenAll(occurrences, record) == Put(all, k, ListFor(all, k) + [Created(e, now, calls)])
    {
      var n := new Node(e, now, calls);
      ghost var o := Created(e, now, calls);
      var at := IndexOf(occurrences, k);
      var list := if at < |occurrences| then occurrences[at].1 else [];
      AddOne(occurrences, record, k, n, o);
      SeenAllIndex(occurrences, record, k);
      occurrences := Put(occurrences, k, list + [n]);
      record := record[n := o];
    }

    method Prepare(now: int)
      requires Valid()
      modifies this`occurrences, this`entryCount, this`lastPruneAt
      ensures Valid() && View() == Refreshed(cfg, old(View()), now)
    {
      RefreshAccounted(cfg, View(), now);
      if entryCount > cfg.maxEntries || 2 * (now - lastPruneAt) > DoublePause(cfg.ttlMs) {
        Prune(now);
        lastPruneAt := now;
      }
    }

    /** Place of the occurrence an event matches, or the length of the list. */
    method Find(list: seq<Node>, e: Event, now: int) returns (i: nat)
      requires Current(list, record)
      ensures i <= |list|
      ensures Matched(SeenList(list, record), e, now, cfg.ttlMs, calls)
           == var all := SeenList(list, record);
              if i < |list| then (all[i := Touch(all[i], e.source, now)], false)
                  else (all + [Created(e, now, calls)], true)
    {
      i := |list|;
      if HasId(e) {
        i := FindLast(list, Exact(e.providerEventId), e.source, now, cfg.ttlMs, record);
      }
      if i == |list| {
        i := FindLast(list, Unseen(e.source), e.source, now, cfg.ttlMs, record);
      }
    }

    /** Finds the place of the object an event matches, if there is one. */
    method Locate(e: Event, now: int) returns (at: nat, i: nat, isNew: bool)
      requires Recorded()
      ensures var all, k := SeenAll(occurrences, record), Identity(e);
              if isNew then
                Entered(cfg, View(), e, now)
                == (State(Put(all, k, ListFor(all, k) + [Created(e, now, calls)]), entryCount + 1, lastPruneAt,
                    calls + 1), true)
              else
                && at < |occurrences| && i < |occurrences[at].1|
                && Entered(cfg, View(), e, now)
                == (State(all[at := (all[at].0, all[at].1[i := Touch(all[at].1[i], e.source, now)])], entryCount,
                    lastPruneAt, calls + 1), false)
    {
      at := IndexOf(occurrences, Identity(e));
      SeenAllIndex(occurrences, record, Identity(e));
      var list := if at < |occurrences| then occurrences[at].1 else [];
      assert at < |occurrences| ==> AllIn(occurrences[at].1, record);
      assert ListFor(SeenAll(occurrences, record), Identity(e)) == SeenList(list, record);
      i := Find(list, e, now);
      isNew := i == |list|;
    }

    method Enter(e: Event, now: int) returns (isNew: bool)
      requires Valid()
      modifies this`occurrences, this`entryCount, this`calls, this`record, record.Keys
      ensures Recorded() && record.Keys >= old(record.Keys) && fresh(record.Keys - old(record.Keys))
      ensures (View(), isNew) == Entered(cfg, old(View()), e, now)
    {
      ghost var goal := Entered(cfg, View(), e, now);
      var at, i;
      at, i, isNew := Locate(e, now);
      if isNew {
        Create(e, now, Identity(e));
        entryCount, calls := entryCount + 1, calls + 1;
        assert View() == goal.0;
      } else {
        assert AllIn(occurrences[at].1, record);
        Suppress(at, i, e.source, now);
        calls := calls + 1;
        assert View() == goal.0;
      }
    }

    /** Accepts or suppresses one event. */
    method Accept(e: Event, now: int) returns (isNew: bool)
      requires Valid()
      modifies this, record.Keys
      ensures Valid() && record.Keys >= old(record.Keys) && fresh(record.Keys - old(record.Keys))
      ensures (View(), isNew) == Accepted(cfg, old(View()), e, now)
    {
      AcceptAccounted(cfg, View(), e, now);
      Prepare(now);
      isNew := Enter(e, now);
    }
  }

  lemma TakeOne(rest: Table, before: Table, record: Record)
    requires rest != [] && Covered(rest, record)
    ensures before + rest == before + [(rest[0].0, rest[0].1)] + rest[1..]
    ensures AllIn(rest[0].1, record) && Covered(rest[1..], record)
  {
  }

  lemma CoveredLater(m: Table, record: Record, record': Record)
    requires Covered(m, record) && record.Keys <= record'.Keys
    ensures Covered(m, record')
  {
    forall i | 0 <= i < |m| ensures AllIn(m[i].1, record') {
      assert AllIn(m[i].1, record);
    }
  }
}
