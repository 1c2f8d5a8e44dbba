/** What a client listens to, read off its commands: the filter under which each stream is listed is the one of the
    last subscribe command that named it, a command that is answered has listed all of its streams, and one is
    refused exactly when the streams listed and asked for are too many together. */
module HubSubscriptions {
  import opened Collections
  import opened HubProtocol
  import opened HubDelivery
  import opened HubReferences

  // ---------- the last command ----------

  /** A subscribe command, and what its client listed when it came. */
  datatype Command = Command(ids: seq<string>, filter: Filter, subs: Dict<string, Filter>)

  /** The last subscribe command of client c in the run that could start. */
  function LastCommand(cfg: Config, steps: seq<Step>, c: nat): Option<Command>
    decreases |steps|
  {
    if steps == [] then None else
    var before, s := steps[..|steps| - 1], steps[|steps| - 1];
    var h := Run(cfg, before).hub;
    if s.SubscribeCommand? && s.client == c && Enabled(h, s) then Some(Command(s.ids, s.filter, h.clients[c].subs))
    else LastCommand(cfg, before, c)
  }

  /** The listing of a stream once the command has listed its first n streams. */
  function Listing(command: Command, n: nat, id: string): Option<Filter>
    requires n <= |command.ids|
  {
    if id in command.ids[..n] then Some(command.filter) else Get(command.subs, id)
  }

  /** A command in progress is the last one, and has listed its first streams under its filter. */
  ghost predicate Follows(c: Client, command: Option<Command>) {
    c.job.Some? ==>
      && command.Some? && c.job.value.ids == command.value.ids && c.job.value.filter == command.value.filter
      && c.job.value.next <= |command.value.ids|
      && forall id :: Get(c.subs, id) == Listing(command.value, c.job.value.next, id)
  }

  lemma {:induction false} ListingNext(command: Command, n: nat, id: string)
    requires n < |command.ids|
    ensures Listing(command, n + 1, id)
         == if id == command.ids[n] then Some(command.filter) else Listing(command, n, id)
  {
    assert command.ids[..n + 1] == command.ids[..n] + [command.ids[n]];
  }

  lemma RecordFollows(c: Client, command: Command)
    requires Follows(c, Some(command)) && c.job.Some? && c.job.value.next < |c.job.value.ids| && Unique(c.subs)
    ensures var job := c.job.value;
            var subs := Put(c.subs, job.ids[job.next], job.filter);
            Follows(c.(subs := subs, job := Some(job.(next := job.next + 1, awaiting := false))), Some(command))
  {
    var job := c.job.value;
    PutFacts(c.subs, job.ids[job.next], job.filter);
    forall id ensures Get(Put(c.subs, job.ids[job.next], job.filter), id) == Listing(command, job.next + 1, id) {
      ListingNext(command, job.next, id);
    }
  }

  lemma AdvanceFollows(h: Hub, c: nat, command: Option<Command>)
    requires c < |h.clients| && h.clients[c].job.Some? && Unique(h.clients[c].subs) && Follows(h.clients[c], command)
    ensures Follows(AdvanceClient(h, c).clients[c], command)
  {
    if h.clients[c].job.value.next < |h.clients[c].job.value.ids| {
      RecordFollows(h.clients[c], command.value);
    }
  }

  lemma StartFollows(c: Client, ids: seq<string>, filter: Filter, maxSubscriptions: nat)
    requires c.job.None?
    ensures Follows(StartSubscribe(c, ids, filter, maxSubscriptions), Some(Command(ids, filter, c.subs)))
  {
  }

  lemma UnsubscribeFollows(h: Hub, c: nat, ids: seq<string>, command: Option<Command>)
    requires c < |h.clients| && h.clients[c].job.None?
    ensures Follows(UnsubscribeStep(h, c, ids).clients[c], command)
  {
    DropSubsKeeps(h, c, ids);
  }

  lemma StepFollows(cfg: Config, h: Hub, s: Step, c: nat, command: Option<Command>)
    requires c < |h.clients| && Unique(h.clients[c].subs) && Follows(h.clients[c], command)
    ensures c < |Apply(cfg, h, s).clients|
    ensures Follows(Apply(cfg, h, s).clients[c],
                    if s.SubscribeCommand? && s.client == c && Enabled(h, s)
                    then Some(Command(s.ids, s.filter, h.clients[c].subs)) else command)
  {
    ApplyKeepsClientCount(cfg, h, s);
    if !Enabled(h, s) {
    } else if s.Advance? && s.client == c {
      AdvanceFollows(h, c, command);
    } else if s.SubscribeCommand? && s.client == c {
      StartFollows(h.clients[c], s.ids, s.filter, cfg.maxSubscriptions);
    } else if s.UnsubscribeCommand? && s.client == c {
      UnsubscribeFollows(h, c, s.ids, command);
    } else {
      OtherStepsKeepSubs(cfg, h, s, c);
    }
  }

  /** In every run, a subscribe command in progress has the ids and the filter of the client's last subscribe
      command; the streams it is done with are listed under that filter, and all others as they were when it came. */
  lemma {:induction false} JobFollowsCommand(cfg: Config, steps: seq<Step>, c: nat)
    requires c < |Run(cfg, steps).hub.clients|
    ensures Follows(Run(cfg, steps).hub.clients[c], LastCommand(cfg, steps, c))
    decreases |steps|
  {
    var before, s := steps[..|steps| - 1], steps[|steps| - 1];
    var h := Run(cfg, before).hub;
    ApplyKeepsClientCount(cfg, h, s);
    if c < |h.clients| {
      JobFollowsCommand(cfg, before, c);
      SubscriptionLimitHolds(cfg, before, c);
      StepFollows(cfg, h, s, c, LastCommand(cfg, before, c));
    }
  }

  // ---------- what an answer means ----------

  /** Main result.  In every run, a leg of a subscribe command that sends its client anything answers the client's
      last subscribe command, and then every stream that command named is listed under its filter and every other
      one is listed as it was when the command came. */
  lemma {:induction false} SubscribedMeans(cfg: Config, steps: seq<Step>, c: nat, id: string)
    requires Enabled(Run(cfg, steps).hub, Advance(c))
    requires Apply(cfg, Run(cfg, steps).hub, Advance(c)).clients[c].sent != Run(cfg, steps).hub.clients[c].sent
    ensures LastCommand(cfg, steps, c).Some?
    ensures var h, command := Run(cfg, steps).hub, LastCommand(cfg, steps, c).value;
            var d := Apply(cfg, h, Advance(c)).clients[c];
            && d.sent == h.clients[c].sent + [Subscribed(command.ids, h.seqNo)] && d.job.None?
            && Get(d.subs, id) == if id in command.ids then Some(command.filter) else Get(command.subs, id)
  {
    JobFollowsCommand(cfg, steps, c);
    SubscriptionLimitHolds(cfg, steps, c);
    var command := LastCommand(cfg, steps, c).value;
    assert command.ids[..|command.ids|] == command.ids;
  }

  /** The legs that are left, counting two for each stream and one for the answer. */
  function LegsLeft(c: Client): nat {
    if c.job.None? then 0
    else if c.job.value.next >= |c.job.value.ids| then 1
    else 2 * (|c.job.value.ids| - c.job.value.next) + if c.job.value.awaiting then 0 else 1
  }

  /** Each leg brings the command nearer to its end; on an open connection the last one answers. */
  lemma LegsRunOut(h: Hub, c: nat)
    requires c < |h.clients| && h.clients[c].job.Some? && h.clients[c].job.value.next <= |h.clients[c].job.value.ids|
    ensures var was, d := h.clients[c], AdvanceClient(h, c).clients[c];
            && LegsLeft(d) < LegsLeft(was)
            && (d.job.None? && was.phase == Open ==> d.sent == was.sent + [Subscribed(was.job.value.ids, h.seqNo)])
  {
  }

  lemma {:induction false} DroppedListing(h: Hub, i: nat, ids: seq<string>, id: string)
    requires i < |h.clients| && Unique(h.clients[i].subs)
    ensures Unique(DropSubs(h, i, ids).clients[i].subs)
    ensures Get(DropSubs(h, i, ids).clients[i].subs, id) == if id in ids then None else Get(h.clients[i].subs, id)
    decreases |ids|
  {
    if ids != [] {
      var init, last := ids[..|ids| - 1], ids[|ids| - 1];
      DroppedListing(h, i, init, id);
      RemoveFacts(DropSubs(h, i, init).clients[i].subs, last);
      HasIff(DropSubs(h, i, init).clients[i].subs, last);
      assert ids == init + [last];
    }
  }

  /** An unsubscribe leaves none of its streams listed and all others as they were, and answers. */
  lemma {:induction false} UnsubscribedMeans(cfg: Config, steps: seq<Step>, c: nat, ids: seq<string>, id: string)
    requires Enabled(Run(cfg, steps).hub, UnsubscribeCommand(c, ids))
    ensures var h := Run(cfg, steps).hub;
            var d := Apply(cfg, h, UnsubscribeCommand(c, ids)).clients[c];
            && d.sent == h.clients[c].sent + [Unsubscribed(ids, h.seqNo)]
            && Get(d.subs, id) == if id in ids then None else Get(h.clients[c].subs, id)
  {
    SubscriptionLimitHolds(cfg, steps, c);
    DroppedListing(Run(cfg, steps).hub, c, ids, id);
    DropSubsKeeps(Run(cfg, steps).hub, c, ids);
  }

  // ---------- the limit ----------

  lemma OneMore(id: string, rest: set<string>, known: set<string>)
    requires id !in rest
    ensures |({id} + rest) - known| == (if id in known then 0 else 1) + |rest - known|
  {
    if id in known {
      assert ({id} + rest) - known == rest - known;
    } else {
      assert ({id} + rest) - known == {id} + (rest - known);
    }
  }

  lemma {:induction false} MembersCons(ids: seq<string>)
    requires NoDuplicates(ids) && ids != []
    ensures Members(ids) == {ids[0]} + Members(ids[1..]) && ids[0] !in Members(ids[1..]) && NoDuplicates(ids[1..])
  {
    assert ids == [ids[0]] + ids[1..];
  }

  lemma {:induction false} KnownMember(subs: Dict<string, Filter>, id: string)
    ensures id in Members(Keys(subs)) <==> Has(subs, id)
  {
    HasIff(subs, id);
  }

  lemma {:induction false} NewIdsCount(subs: Dict<string, Filter>, ids: seq<string>)
    requires NoDuplicates(ids)
    ensures NewIds(subs, ids) == |Members(ids) - Members(Keys(subs))|
    decreases |ids|
  {
    if ids == [] {
      assert Members(ids) == {};
    } else {
      MembersCons(ids);
      NewIdsCount(subs, ids[1..]);
      KnownMember(subs, ids[0]);
      OneMore(ids[0], Members(ids[1..]), Members(Keys(subs)));
    }
  }

  /** Main result.  In every run, a subscribe command is refused exactly when the streams its client lists and
      those it asks for are more than the limit together; otherwise it starts, with its own ids and filter. */
  lemma {:induction false} SubscribeRefusedIff(cfg: Config, steps: seq<Step>, c: nat, ids: seq<string>, filter: Filter)
    requires Enabled(Run(cfg, steps).hub, SubscribeCommand(c, ids, filter))
    ensures var was := Run(cfg, steps).hub.clients[c];
            var d := Apply(cfg, Run(cfg, steps).hub, SubscribeCommand(c, ids, filter)).clients[c];
            if |Members(Keys(was.subs)) + Members(ids)| > cfg.maxSubscriptions then d == Send(was, SubscriptionLimit)
            else d == was.(job := d.job) && d.job == Some(Job(ids, 0, false, filter))
  {
    var was := Run(cfg, steps).hub.clients[c];
    SubscriptionLimitHolds(cfg, steps, c);
    MembersCount(Keys(was.subs));
    NewIdsCount(was.subs, ids);
    var known, asked := Members(Keys(was.subs)), Members(ids);
    assert known + asked == known + (asked - known);
    assert |known + (asked - known)| == |known| + |asked - known|;
  }
}
