# Verified model of the stream-processing core

This project models the in-memory core of a realtime chat and live-status service, and proves its
protocols correct with Dafny 4.11.  `dafny verify dfyconfig.toml` checks all of it.

What is modelled, component by component:

* **Downstream hub** (`src/server/ws-hub.ts`, `src/core/connection-pool.ts`).  `HubProtocol` is a
  transition system over all connections: connect, pong, broadcast, heartbeat, resume, the legs of a
  subscribe command suspended in `acquire`, unsubscribe, socket loss, close handler, idle timers.
  `bufferedAmount` is a free input of each step.  `HubDelivery`, `HubResume`, `HubCoverage`,
  `HubReferences`, `HubSubscriptions` and `HubLiveness` prove what holds over all runs, `PoolPins` the same
  for pins; `WsHub` and `ConnectionPool` hold the classes, with the ring as an array written in place, and
  show that every method of the hub performs its step (`View() == Apply(old View(), step)`).
* **Drift detector** (`src/core/protocol-drift.ts`).  `ProtocolDrift` keeps the running counters over two
  head-indexed lists and proves them equal to a recount; `DriftWindow` proves what that recount means for
  the whole history, `DriftAlerts` when it raises an incident.
* **Deduplicator** (`src/core/deduplicator.ts`).  `Deduplication` is the matching on values,
  `DedupCounting` the counting theorem, `DedupPruning` the accounting, `DedupExpiry` the simulation that
  makes pruning invisible, `DedupAnswers` and `DedupRecency` what one event does to the occurrences,
  `Deduplicator` the object whose occurrences are changed in place.
  The identity itself is the key.
* **Consensus** (`src/core/consensus.ts`).  `Families`, `Tally` and `Consensus` define the nested vote,
  `ConsensusLaws` its guarantees, `FieldVoting` its loops; `Medians`, `RobustNumber`, `RobustLaws` and
  `NumberVoting` do the same for numbers, `Confidence` for the score; `ConsensusWeights` and
  `NumberWeights` give the exact arithmetic from the raw rows.  Weights are positive exact reals
  passed in; a value carries the normalised key it is compared by.
* **Circuit breaker** (`src/core/circuit-breaker.ts`), **single-flight cache**
  (`src/core/single-flight-cache.ts`) and **rate limiter** (`src/server/rate-limit.ts`): each a class
  proved against a state machine over admission, completion and failure steps, with theorems over
  arbitrary interleavings (`SingleFlightAnswers` and `RateAnswers` say exactly what each caller gets).
* **Wire framing** (`src/protocol/packet.ts`, `src/protocol/fixture-replay.ts`) over UTF-16 code units
  and bytes, with `Utf8` following section 3 of RFC 3629; `WireFormat` spells the formats out byte by byte.

The clock is an argument everywhere.  A JavaScript `Map` is a sequence of entries in insertion order
(`Collections.Dict`), except where only membership matters.

## Where the code is weaker than it reads

Each of these is proved, together with the condition under which the code does what it reads like.

* `resume` on a congested socket can move the end of a pending gap back, so that an owed event is in no frame
  and no gap (`HubResume.ResumeLosesOwedEvent`; exact condition `HubCoverage.FirstResumeLosesIff`).  It also
  marks only the first unsent event of those asked for again (`CongestedResumeLoses`; exact condition
  `ResumeCoversAllIff`), and the gap can end before it begins (exact condition `ResumeInvertsGapIff`).
* An unsubscribe queued behind the close of its socket releases a reference the close handler already
  released, and the stream of another client can be destroyed (`HubReferences.LateUnsubscribeIff`,
  `LateUnsubscribeDestroysStream`); pinning an idle stream leaves its timer armed
  (`ConnectionPool.PinLeavesTimerArmedIff`; a pin lasts exactly if no such timer is left, `PoolPins.PinHoldsIff`).
* `docs/ARCHITECTURE.md` line 47 promises a single trial in half-open.  One trial is admitted per half-open period,
  but a late outcome starts a new period while the first trial is still in flight
  (`CircuitBreaker.LateFailureAllowsSecondTrial`; exact condition `SecondTrialIff`).
* `docs/ARCHITECTURE.md` line 63 calls a retransmitted provider id a certain duplicate.  It is one within
  the TTL of its last arrival only (`DedupExpiry.IdAcceptedIff`).
* The cache's eviction skips the empty key, which then pins the cache (`SingleFlight.EmptyKeyPinsTheCache`;
  exact condition `StoredWithinLimitIff`).  A bypass of a loader in flight runs a second one, and the first
  to finish unregisters both (`OvertakingStartsSecondLoader`, `SettlingForgetsTheOther`; exact condition
  `BypassBreaksIff`).
* The fixed window admits up to 2 * perMinute - 1 calls in a minute (`RateLimit.MinuteBoundIsTight`; within
  perMinute exactly when perMinute is at most 1, `KeepsLimitIff`, and in every minute that begins with no
  window open, `ClosedMinuteKeepsLimit`).  An eviction resets a quota, so that under evictions no bound is
  left (`EvictionRestartsKey`, `EvictionVoidsBound`; exact condition `FirstEvictionIff`, excluded by
  `FewKeysEvictNothing`).
* Codes above four digits, payloads above 999999 bytes, empty or oversized fixture packets and unpaired
  surrogates do not survive a round trip (`Packet.RoundTripIff`, `FixtureReplay.ReadsBackIff`,
  `Utf8.SurvivesIff`, `FixtureReplay.TextsReadBackIff`).

## Model

| member | source | states |
|---|---|---|
| `HubDelivery.DeliveredOrGapped` | src/server/ws-hub.ts:18-25 | over every run in which the client does not resume, each event that matched its filter while it was open is in exactly one delivered frame, sent gap or pending gap; numbers and gaps strictly increase and are disjoint; no frame carries anything the client was not owed |
| `HubDelivery.StepFaithful` | src/server/ws-hub.ts:18-25 | every single step of the hub but a resume by that client keeps that accounting |
| `HubDelivery.UncongestedReceivesAll` | src/server/ws-hub.ts:25 | a client never over its buffer limit at a broadcast receives exactly the events it is owed, once each and in order |
| `HubDelivery.HeartbeatSettles` | src/server/ws-hub.ts:19 | a heartbeat either drops an idle client or leaves everything owed accounted for by frames already sent |
| `HubLiveness.LastPongIsLastHeard` | src/server/ws-hub.ts:18 | in every run the liveness time of a client is the time of its connection or of its last pong, read off the steps alone |
| `HubLiveness.HeartbeatDropsIff` | src/server/ws-hub.ts:18-19 | a heartbeat takes an open client out of the open ones exactly when it has not been heard for longer than the idle time |
| `HubLiveness.NothingWritten` | src/server/ws-hub.ts:19-25 | a broadcast or heartbeat writes nothing to a socket over its limit or not open, and a broadcast nothing its filter does not take |
| `HubLiveness.MatchesIff` | src/server/ws-hub.ts:12-20 | a listing takes an event exactly if it names everything or one of the four descriptions of the event |
| `HubLiveness.StepStamped` | src/server/ws-hub.ts:18-25 | whatever a step sends carries the number of the last event broadcast, and nothing sent is taken back |
| `HubLiveness.LastSeqIsLastSent` | src/server/ws-hub.ts:21-25 | in every run the last number kept for a client is that of the last event sent to it, live or replayed |
| `HubLiveness.ResumeInvalidIff` | src/server/ws-hub.ts:21 | a resume number is refused as invalid exactly when it is negative or above 2^53 - 1, and then nothing else happens |
| `HubSubscriptions.JobFollowsCommand` | src/server/ws-hub.ts:21 | in every run a suspended subscribe command has the ids and the filter of the last command of its client, and every id it is past is listed under that filter |
| `HubSubscriptions.SubscribedMeans` | src/server/ws-hub.ts:21 | in every run, when a subscribe command is confirmed, each of its ids is listed under the filter the command named and every other id as before the command |
| `HubSubscriptions.LegsRunOut` | src/server/ws-hub.ts:21 | a leg either moves on to the next id or suspends once in front of it, so the command ends |
| `HubSubscriptions.UnsubscribedMeans` | src/server/ws-hub.ts:21 | when an unsubscribe command is confirmed none of its ids is listed and every other id is listed as before |
| `HubSubscriptions.SubscribeRefusedIff` | src/server/ws-hub.ts:21 | in every run a subscribe command is refused exactly when the streams listed and named together are more than the limit |
| `HubResume.RingHoldsTail` | src/server/ws-hub.ts:9 | in every reachable state the ring holds exactly the last min(seq, capacity) broadcasts with contiguous numbers |
| `HubResume.ResumeIsExact` | src/server/ws-hub.ts:22 | `resume` is refused exactly when event fromSeq+1 has been overwritten; otherwise it replays, ascending, the matching events of the whole history above fromSeq up to the first that meets congestion |
| `HubResume.ReplayClosedForm` | src/server/ws-hub.ts:22 | the replay loop equals its closed form: deliver the due events before the first refused one, mark that one |
| `HubResume.DueMembers` | src/server/ws-hub.ts:22 | the due events are exactly the retained ones above fromSeq that match the subscription |
| `HubResume.DueAscends` | src/server/ws-hub.ts:22 | and they are in ascending order |
| `HubResume.ResumeCoversAllIff` | src/server/ws-hub.ts:22-24 | the exact condition under which what a resume adds covers every event due again under the current filter |
| `HubCoverage.OwedIsCovered` | src/server/ws-hub.ts:18-25 | over every run, resumes included, in which no resume finds the socket over its limit at a first due event older than the end of the pending gap, every event ever owed to the client is in some frame or gap |
| `HubCoverage.FirstResumeLosesIff` | src/server/ws-hub.ts:22-24 | after every run in which the client has not resumed before, its resume leaves everything owed accounted for exactly unless it does that |
| `HubCoverage.ReplayLosesIff` | src/server/ws-hub.ts:22-23 | the same for the replay loop from any account that is in order |
| `HubResume.CongestedResumeLoses` | src/server/ws-hub.ts:22-23 | every resume stopped before its last due event, with no gap pending, leaves the later ones unaccounted for |
| `HubResume.ResumeInvertsGapIff` | src/server/ws-hub.ts:22-24 | a resume leaves a gap that ends before it begins exactly when it finds the socket over its limit at the first event due and that event is older than the gap pending before |
| `HubResume.InvertedGapClaimsNothing` | src/server/ws-hub.ts:24 | such a gap is announced with a drop count of at most 0 |
| `HubResume.ResumeLosesOwedEvent` | src/server/ws-hub.ts:18-25 | a run of the hub that does both: after connect, subscribe, one delivered and one congested broadcast and a congested resume, an owed event is in no frame and no gap |
| `HubReferences.ReferenceConservation` | src/server/ws-hub.ts:18-21 | over every interleaving of subscribe legs, unsubscribes, closes and timers, but for late unsubscribes of streams still listed and pooled, `refs` of a stream is the number of clients holding it plus pending acquires, and an idle timer is armed exactly when that is 0 |
| `HubReferences.StepConservesIff` | src/server/ws-hub.ts:18-21 | a step keeps that balance exactly unless it is such an unsubscribe; a socket that closes while `acquire` is pending keeps it |
| `HubReferences.StreamInUseSurvives` | src/server/ws-hub.ts:18-21 | no timer that can fire destroys a stream somebody holds or waits for |
| `HubReferences.LateUnsubscribeIff` | src/server/ws-hub.ts:18-21 | an unsubscribe command run after the close handler keeps the balance exactly when none of its ids is still listed by its client and still in the pool |
| `HubReferences.LateDropIff` | src/server/ws-hub.ts:18-21 | the same for one id of it, from every state in balance |
| `HubReferences.LateUnsubscribeDestroysStream` | src/server/ws-hub.ts:18-21 | a run of the hub in which it does harm: of two clients of one stream one closes, its late unsubscribe releases the reference of the other, and the idle timer destroys the stream the other still holds |
| `HubReferences.SubscriptionLimitHolds` | src/server/ws-hub.ts:21 | no client ever exceeds maxWsSubscriptions, although ids are added one by one across suspensions |
| `WsHub.SlotIsModulo` | src/server/ws-hub.ts:9 | the wrapped slot is the slot taken modulo the capacity |
| `WsHub.ReplayRing.Push` | src/server/ws-hub.ts:9 | the in-place ring appends, and overwrites its oldest entry exactly when full |
| `WsHub.ReplayRing.Items` | src/server/ws-hub.ts:9 | the ring lists what it retains, oldest first |
| `WsHub.ReplayRing.OldestSeq` | src/server/ws-hub.ts:9 | the oldest retained number, or the fallback for an empty ring |
| `WsHub.Subscriber.MarkGap` | src/server/ws-hub.ts:23 | first number of a gap kept, last number moved |
| `WsHub.Subscriber.FlushGap` | src/server/ws-hub.ts:24 | a pending gap is announced once with its size and cleared |
| `WsHub.Subscriber.Deliver` | src/server/ws-hub.ts:25 | pending gap first, then the event, then lastSeq |
| `WsHub.Subscriber.Offer` | src/server/ws-hub.ts:20-25 | one connection in a broadcast: unmatched or closed is untouched, congested is marked, otherwise delivered |
| `WsHub.Subscriber.Beat` | src/server/ws-hub.ts:19 | one connection in a heartbeat |
| `WsHub.Subscriber.Replay` | src/server/ws-hub.ts:22 | the loop of resume over the retained events |
| `WsHub.Subscriber.Resume` | src/server/ws-hub.ts:21-22 | validation, refusal, replay and the closing report |
| `WsHub.Hub.Broadcast` | src/server/ws-hub.ts:25 | the whole new state of hub and connections is the broadcast step |
| `WsHub.Hub.HeartbeatClients` | src/server/ws-hub.ts:19 | the whole new state is the heartbeat step |
| `WsHub.Hub.Subscribe` | src/server/ws-hub.ts:21 | the limit check and the start of a subscribe command |
| `WsHub.Hub.Advance` | src/server/ws-hub.ts:21 | one leg of the subscribe loop up to its next suspension, with the re-check after `await` |
| `WsHub.Hub.Unsubscribe` | src/server/ws-hub.ts:21 | delete-then-release for each id |
| `WsHub.Hub.OnClose` | src/server/ws-hub.ts:18 | the close handler releases every listed stream |
| `WsHub.Hub.FireTimer` | src/server/ws-hub.ts:18 | an idle timer runs |
| `WsHub.Hub.Resume` | src/server/ws-hub.ts:21-22 | one connection resumes, all others stay as they are |
| `WsHub.Hub.Connect` | src/server/ws-hub.ts:18 | a new connection is greeted with the current number |
| `WsHub.Hub.Disconnect` | src/server/ws-hub.ts:18 | the socket leaves OPEN before its close handler runs |
| `WsHub.Hub.OnPong` | src/server/ws-hub.ts:18 | only the liveness time of that connection changes |
| `ConnectionPool.AcquireKeepsSound` | src/core/connection-pool.ts:17-28 | acquire raises one count by one and keeps timers armed exactly for idle entries |
| `ConnectionPool.ReleaseKeepsSoundIff` | src/core/connection-pool.ts:29 | release keeps that exactly when somebody holds the entry; a surplus release arms a second timer |
| `ConnectionPool.FireIsHarmless` | src/core/connection-pool.ts:29-34 | in a sound pool a timer destroys only an entry nobody holds |
| `ConnectionPool.PinLeavesTimerArmedIff` | src/core/connection-pool.ts:30 | after pinning, an armed timer would destroy the pinned entry exactly when it was there and idle before |
| `PoolPins.PinnedMeans` | src/core/connection-pool.ts:17-34 | over every run of pool calls and timers a stream is pinned exactly when a call since its entry was last destroyed asked for it |
| `PoolPins.PinHoldsIff` | src/core/connection-pool.ts:17-34 | a pinned stream outlives every later run exactly when no timer armed earlier can still destroy it |
| `ConnectionPool.Pool.Acquire` | src/core/connection-pool.ts:17-28 | creates the entry if needed, cancels its idle timer, counts the holder |
| `ConnectionPool.Pool.Take` | src/core/connection-pool.ts:17-28 | the same for an entry that is there |
| `ConnectionPool.Pool.Release` | src/core/connection-pool.ts:29 | drops a holder and arms the idle timer at zero |
| `ConnectionPool.Pool.Pin` | src/core/connection-pool.ts:30 | pins an existing entry, or acquires and releases one |
| `ConnectionPool.Pool.Fire` | src/core/connection-pool.ts:34 | the timer callback removes whatever entry has its id |
| `DriftWindow.WindowIsExact` | src/core/protocol-drift.ts:12-15 | for non-decreasing timestamps the live windows are the newest maxEvents and maxAnomalies of all items within windowMs, taken over the whole history |
| `DriftWindow.WindowUncutIff` | src/core/protocol-drift.ts:12-15 | each live window is everything the whole history has within windowMs exactly while that fits its cap |
| `ProtocolDrift.CountersCountTheWindow` | src/core/protocol-drift.ts:11-15 | so the five running counters of the detector object are the recount of everything the whole history has within windowMs, while the caps have room for it |
| `ProtocolDrift.TotalCountsTheWindowIff` | src/core/protocol-drift.ts:11-15 | and its event total is exactly that count if and only if the event cap has room |
| `ProtocolDrift.ObservesOn` | src/core/protocol-drift.ts:12-13 | what the observing methods promise of one call is the state of the run that is one observation longer |
| `DriftWindow.AffectedIff` | src/core/protocol-drift.ts:9-13 | the affected-streams map has exactly the streams with an unknown event or malformed packet, and no zero entry |
| `DriftWindow.AlertsAreSpaced` | src/core/protocol-drift.ts:16 | incidents are at least the cooldown apart and the log holds the last hundred, whatever the timestamps |
| `DriftAlerts.IncidentIff` | src/core/protocol-drift.ts:16 | after every history an observation reports an incident exactly when the cooldown since the last report is over and the live windows hold enough unknown events, as a number and as a share, or enough malformed packets, on enough streams; reason, severity and counts are exact |
| `DriftAlerts.IncidentOfHistoryIff` | src/core/protocol-drift.ts:12-16 | for non-decreasing timestamps the same, said of the whole history |
| `DriftAlerts.TalliesCount` | src/core/protocol-drift.ts:11-15 | each code is tallied as often as an unknown event in the window carries it, each stream as often as it has an unknown event or malformed packet |
| `ProtocolDrift.BumpUp` | src/core/protocol-drift.ts:11 | bumping up counts one more |
| `ProtocolDrift.BumpDown` | src/core/protocol-drift.ts:11 | bumping down undoes it and removes a key at zero |
| `ProtocolDrift.RecountWithoutFirstEvent` | src/core/protocol-drift.ts:14-15 | adjusting the counters for the oldest event equals recounting without it |
| `ProtocolDrift.RecountWithoutFirstAnomaly` | src/core/protocol-drift.ts:14-15 | the same for an anomaly |
| `ProtocolDrift.BackingBound` | src/core/protocol-drift.ts:14 | lazy compaction bounds the backing list by cap + 1 + max(slack, cap + 1) |
| `ProtocolDrift.ProtocolDriftDetector.ObserveEvent` | src/core/protocol-drift.ts:12 | incremental counters equal a recount of the live suffix through push, prune, compaction, cap and alert; backing arrays stay bounded |
| `ProtocolDrift.ProtocolDriftDetector.ObserveAnomaly` | src/core/protocol-drift.ts:13 | the same for an anomaly |
| `ProtocolDrift.ProtocolDriftDetector.Prune` | src/core/protocol-drift.ts:14 | both windows lose exactly their expired prefix, in two loops, and the counters follow |
| `ProtocolDrift.ProtocolDriftDetector.Compact` | src/core/protocol-drift.ts:14 | dropping the dead prefix changes no live item |
| `ProtocolDrift.ProtocolDriftDetector.Cap` | src/core/protocol-drift.ts:15 | the newest items up to the caps stay |
| `ProtocolDrift.ProtocolDriftDetector.Evaluate` | src/core/protocol-drift.ts:16 | the alert is the one a recount would raise |
| `DedupCounting.AcceptsAreTheMaximum` | src/core/deduplicator.ts:24-36 | without expiry, the events accepted for one identity number exactly the largest count any provider sent |
| `DedupCounting.OrderDoesNotMatter` | src/core/deduplicator.ts:24-36 | so the order of arrival does not change how many are accepted |
| `DedupCounting.RepeatsAreKept` | src/core/deduplicator.ts:11-18 | with or without expiry, at least as many are accepted as any one provider sent |
| `DedupCounting.MatchTakesSlot` | src/core/deduplicator.ts:31-35 | an event without id takes one new provider slot and changes no other provider's |
| `DedupCounting.ShortHistoriesKeepAll` | src/core/deduplicator.ts:31 | a history no longer than the TTL expires nothing |
| `DedupCounting.IdIsSuppressedWithinTtl` | src/core/deduplicator.ts:28-31 | an id is suppressed exactly within the TTL of its last arrival, accepted or not, from whatever provider |
| `DedupExpiry.ExpiryIsInvisible` | src/core/deduplicator.ts:25-45 | with a monotone clock, and until an unexpired occurrence of its identity is evicted, an event is answered as by an object that never prunes |
| `DedupExpiry.AcceptedIsTheMaximum` | src/core/deduplicator.ts:24-51 | the counting theorem for the object with its pruning |
| `DedupExpiry.AcceptsEveryRepeat` | src/core/deduplicator.ts:11-51 | whatever the clock does and whatever is evicted, the object accepts at least as many events of an identity as any one provider sent |
| `DedupExpiry.IdAcceptedIff` | src/core/deduplicator.ts:28-45 | the id rule for the object with its pruning |
| `DedupExpiry.MatchSeesYoung` | src/core/deduplicator.ts:30-42 | matching on the unexpired part and then pruning equals pruning after matching |
| `DedupExpiry.FewRecentEvictNothing` | src/core/deduplicator.ts:38-50 | with any clock and any length of history, nothing is evicted while no more than maxEntries events arrive within any TTL |
| `DedupExpiry.SeenAreRecent` | src/core/deduplicator.ts:24-51 | after every run the occurrences seen since a time are no more than the arrivals since then |
| `DedupExpiry.NoRoomSuppressesNothing` | src/core/deduplicator.ts:45-50 | without room eviction forgets everything: nothing is ever suppressed |
| `DedupPruning.CountIsExact` | src/core/deduplicator.ts:21-51 | after any run, whatever the clock, entryCount is the number of occurrences held, at most maxEntries + 1, each an object of its own |
| `DedupPruning.HardCapKeepsNewest` | src/core/deduplicator.ts:45-50 | an eviction leaves exactly floor(0.8 * maxEntries), none of them last seen before one removed |
| `DedupAnswers.AcceptTakesNewest` | src/core/deduplicator.ts:24-36 | after every history an event is suppressed exactly if an unexpired occurrence of its identity has its id or has not seen its provider; it takes the latest created such occurrence and changes no other |
| `DedupAnswers.PruneIsTimely` | src/core/deduplicator.ts:25-45 | in every run the last prune is never longer ago than the pause, a prune of a thousand occurrences leaves none last seen before the TTL, and below that nothing is forgotten |
| `DedupRecency.LastSeenIsLatest` | src/core/deduplicator.ts:30-35 | in every run with a monotone clock each occurrence was last seen when the latest of its providers reported it |
| `Sorting.SortStable` | src/core/deduplicator.ts:47 | the sort keeps the order of occurrences seen at the same time |
| `Deduplicator.Node.Refresh` | src/core/deduplicator.ts:30-32 | records the provider and the time on the occurrence, in place |
| `Deduplicator.EventDeduplicator.Accept` | src/core/deduplicator.ts:24-36 | the object's answer and new state are those of the value model; occurrences stay distinct objects |
| `Deduplicator.EventDeduplicator.Prune` | src/core/deduplicator.ts:38-51 | two in-place filtering loops around a stable sort |
| `Deduplicator.EventDeduplicator.KeepOnly` | src/core/deduplicator.ts:41-44 | filters every list, drops empty ones, and keeps the entry count right |
| `Deduplicator.EventDeduplicator.Suppress` | src/core/deduplicator.ts:30-32 | changes one occurrence and no other |
| `Deduplicator.EventDeduplicator.Create` | src/core/deduplicator.ts:34-35 | adds one fresh occurrence at the end of its list |
| `ConsensusLaws.ConflictPartition` | src/core/consensus.ts:17-34 | for distinct providers, `sources` and `conflictingProviders` are disjoint and together are exactly the providers with a value |
| `ConsensusLaws.SourceIff` | src/core/consensus.ts:17-34 | a provider is a source exactly when its value and its family's vote both equal the consensus |
| `ConsensusLaws.FieldAgreement` | src/core/consensus.ts:22-32 | through both votes the agreement lies in (0,1] and is 1 exactly when all values are the same |
| `ConsensusLaws.NoConflictIff` | src/core/consensus.ts:22-32 | full agreement is the absence of conflict |
| `ConsensusLaws.FamilyCountsOnce` | src/core/consensus.ts:17-32 | a family that gains an agreeing member no heavier than its heaviest changes neither value nor agreement nor the number of families |
| `ConsensusLaws.VoteIsCapped` | src/core/consensus.ts:22 | a family weighs between 0.15 and 1 times its heaviest member, however many members it has |
| `ConsensusLaws.VoteAgreement` | src/core/consensus.ts:22 | a family's agreement is full exactly when its members agree |
| `ConsensusLaws.ConsensusIsHeaviest` | src/core/consensus.ts:32 | no value has more family weight than the consensus |
| `ConsensusLaws.DiscreteIff` | src/core/consensus.ts:20-31 | there is a consensus exactly when some provider has a value |
| `ConsensusLaws.DiscreteLaws` | src/core/consensus.ts:17-34 | the laws above, from raw observations |
| `ConsensusWeights.FamilyVoteIsExact` | src/core/consensus.ts:22 | a family votes for the value with most of its weight, agrees by the exact share of that weight, and votes with its heaviest weight times that share, at least .15 |
| `ConsensusWeights.FieldIsExact` | src/core/consensus.ts:30-32 | the consensus has most of the families' weight, and its agreement is exactly the share of all that weight given to it, each family counted as far as it agrees in itself |
| `ConsensusWeights.EachFamilyVotesOnce` | src/core/consensus.ts:18-23 | every family with a row votes, once, in the order of the families' first rows |
| `ConsensusWeights.FieldWords` | src/core/consensus.ts:20-32 | the consensus is given in the words of the first such member of the first family that votes for it |
| `ConsensusWeights.CountsAreExact` | src/core/consensus.ts:30-33 | the number of families is that of the rows, and no source or conflicting provider is listed twice |
| `Tally.WinnerIsHeaviest` | src/core/consensus.ts:22 | the winning key occurs and none outweighs it |
| `Tally.SortFindsHeaviest` | src/core/consensus.ts:22 | sorting by descending weight puts the heaviest key first, the earliest one among equals |
| `FieldVoting.FamilyBallot` | src/core/consensus.ts:22 | the bucket loop, sort and reduces of one family compute its vote |
| `FieldVoting.FamilyDiscrete` | src/core/consensus.ts:17-24 | the grouping loop and the vote of every family |
| `FieldVoting.Top` | src/core/consensus.ts:22 | the first bucket after the sort belongs to the winning key |
| `FieldVoting.DiscreteField` | src/core/consensus.ts:30-34 | the loops of the cross-family vote compute the field |
| `Confidence.ConfidenceRises` | src/core/consensus.ts:26-32 | with the sources fixed, more agreement, more families or less time skew never lower the confidence, through every status and cap |
| `Confidence.ConfidenceIsCapped` | src/core/consensus.ts:27 | the confidence stays in [.03,.999] and under .86, .55 and .49 for one family, one source and weak agreement |
| `Confidence.ConfidenceIsExact` | src/core/consensus.ts:26-28 | the confidence is the weighted evidence of agreement, families and sources, falling with the time skew, under the ceiling of its kind and never below .03 |
| `Medians.MedianIsMiddle` | src/core/consensus.ts:11 | at least half of the values lie on either side of the median |
| `NumberWeights.MedianIsExact` | src/core/consensus.ts:11 | the median is half way between the two middle values, which are one for an odd number of values |
| `NumberWeights.CentreIsExact` | src/core/consensus.ts:38 | the filter measures from the median of the numbers given, in units of the median of how far they lie from it |
| `Medians.MajorityHoldsMedian` | src/core/consensus.ts:11 | the median lies within any bounds that hold more than half of the values |
| `Medians.WeightedMedianIff` | src/core/consensus.ts:12 | the weighted median is the one given value with less than half of the weight below it and at most half above |
| `Medians.WalkStops` | src/core/consensus.ts:12 | the walk always stops, so the fallback after the loop is unreachable |
| `Medians.FindWeightedMedian` | src/core/consensus.ts:12 | the loop with its running weight computes the weighted median |
| `RobustNumber.HalfSurvive` | src/core/consensus.ts:38 | at least half of the values survive the MAD filter, so the second emptiness test cannot fire |
| `RobustNumber.RobustIff` | src/core/consensus.ts:37-38 | there is a number exactly when some provider has one |
| `RobustNumber.KeptOrOutlier` | src/core/consensus.ts:38 | every provider is kept or set aside |
| `RobustLaws.NumberWasGiven` | src/core/consensus.ts:36-39 | the consensus number was given by a surviving provider and lies within the tolerance of the median |
| `RobustLaws.NumberIsCentral` | src/core/consensus.ts:39 | less than half of the families' weight lies below it and at most half above |
| `RobustLaws.MinorityCannotDrag` | src/core/consensus.ts:36-39 | whatever a minority says and weighs, the consensus stays within the majority's own tolerance of the majority's bounds |
| `RobustLaws.NumberAgreement` | src/core/consensus.ts:40 | the agreement lies in [0,1] and is 1 exactly when all surviving values are the consensus |
| `RobustLaws.OutlierIff` | src/core/consensus.ts:38 | a provider is set aside exactly when at least three gave a number and its own lies further from the median than 5 and four median deviations (20 and a fifth of the median when that deviation is 0) |
| `RobustLaws.CloseValuesStay` | src/core/consensus.ts:38 | numbers within 5 of one another are all kept |
| `NumberWeights.EachFamilySpeaks` | src/core/consensus.ts:39 | every family with a surviving number speaks once: with a member's number that has less than half of the family's weight below it and at most half above, at the weight of its heaviest member |
| `NumberWeights.NumberIsExact` | src/core/consensus.ts:39 | and the consensus is a family's number that lies so among the families |
| `NumberWeights.NumberAgreementIsExact` | src/core/consensus.ts:40 | the agreement is the lesser of how narrow the range of the surviving numbers is and of the families' weight counted by how close each is, both fading out at their exact scales |
| `NumberWeights.NumberCountsAreExact` | src/core/consensus.ts:38-42 | the number of families is that of the surviving rows, and no source or outlier is listed twice |
| `RobustLaws.SourcesAndOutliers` | src/core/consensus.ts:38-41 | for distinct providers, sources and outliers are disjoint and together are all providers with a number |
| `RobustLaws.RobustObserved` | src/core/consensus.ts:36-41 | the laws above, from raw observations |
| `NumberVoting.Screen` | src/core/consensus.ts:38 | separates survivors and outliers in order |
| `NumberVoting.SpeakAll` | src/core/consensus.ts:39 | the grouping loop, one weighted median per family |
| `NumberVoting.FindNumber` | src/core/consensus.ts:36-42 | the loops together compute the number |
| `Families.GroupRows` | src/core/consensus.ts:39 | a map filled row by row holds each family's rows in order, families in order of first appearance |
| `Families.RowsProper` | src/core/consensus.ts:20 | distinct providers with positive weights stay so when those without a value are left out |
| `CircuitBreaker.BreakerIsItsHistory` | src/core/circuit-breaker.ts:34-83 | under any interleaving of admissions and late outcomes the state is the closed form of the history: openCount, open and half-open, trial flag, cooldown and deadline; and so is every admission |
| `CircuitBreaker.StepMatches` | src/core/circuit-breaker.ts:34-83 | each step moves the closed form along |
| `CircuitBreaker.GrantsArePaidFor` | src/core/circuit-breaker.ts:34-83 | since a trip, admissions never exceed openCount, one less when no trial is out |
| `CircuitBreaker.CooldownDoubles` | src/core/circuit-breaker.ts:34-83 | after every history the failure that trips starts the base cooldown and every further one twice the one before, up to the maximum, and nobody is let in before it is over |
| `CircuitBreaker.DisabledAdmitsNobody` | src/core/circuit-breaker.ts:46 | a disabled breaker admits nobody |
| `CircuitBreaker.SecondTrialIff` | src/core/circuit-breaker.ts:45-83 | over all runs, while a trial is in flight another call is let in as a trial only if the outcome of some call other than that trial was recorded since it was let in, and at the deadline of a tripped circuit exactly then |
| `CircuitBreaker.OneTrialAtATime` | src/core/circuit-breaker.ts:45-83 | without late outcomes at most one trial is in flight |
| `CircuitBreaker.LateFailureAllowsSecondTrial` | src/core/circuit-breaker.ts:73-83 | for every threshold (0 included) and cooldown, a run of admissions and outcomes by call after which two trials are in flight |
| `CircuitBreaker.Breaker.CanRun` | src/core/circuit-breaker.ts:45-58 | admission, with the move from open to half-open |
| `CircuitBreaker.Breaker.RecordSuccess` | src/core/circuit-breaker.ts:60-71 | full reset |
| `CircuitBreaker.Breaker.RecordFailure` | src/core/circuit-breaker.ts:73-83 | degrade, trip or reopen |
| `CircuitBreaker.Breaker.OpenCircuit` | src/core/circuit-breaker.ts:34-43 | one more opening, doubled cooldown |
| `SingleFlight.AtMostOneLoader` | src/core/single-flight-cache.ts:8-17 | over every interleaving of requests and completions in which no request bypasses a loader in flight for its key, at most one loader runs for a key, and `inflight` holds the key exactly until its handler has run |
| `SingleFlight.CallersGetLoadedValues` | src/core/single-flight-cache.ts:8-16 | with whatever bypasses, every caller gets a value some loader produced for its key, fresh below ttl or stale below ttl + staleIfError, or the failure |
| `SingleFlightAnswers.RequestGets` | src/core/single-flight-cache.ts:9-12 | a request is answered from the cache exactly when that holds an unexpired value for its key, joins the loader in flight, or starts one |
| `SingleFlightAnswers.FailedLoadAnswers` | src/core/single-flight-cache.ts:12-15 | in every run, when a loader fails its callers get the value cached at the request that started it, with its age, exactly if there was one, the request did not bypass and ttl + staleIfError had not passed; otherwise the failure |
| `SingleFlightAnswers.LoadAnswers` | src/core/single-flight-cache.ts:12 | when a loader succeeds its callers get its value |
| `SingleFlightAnswers.CacheHoldsLastLoad` | src/core/single-flight-cache.ts:12-19 | in every run whatever the cache holds for a key is the last value loaded for it, since then |
| `SingleFlightAnswers.StoreEvictsOldest` | src/core/single-flight-cache.ts:19 | a store that overfills the cache drops the oldest key and no other |
| `SingleFlight.StoredWithinLimitIff` | src/core/single-flight-cache.ts:19 | one store keeps the limit exactly unless a full cache's oldest key is the empty string |
| `SingleFlight.CacheBounded` | src/core/single-flight-cache.ts:19 | without the empty key the cache never exceeds maxEntries |
| `SingleFlight.PinnedForever` | src/core/single-flight-cache.ts:19 | once the empty key is the oldest, no run of requests and completions evicts any key again |
| `SingleFlight.EmptyKeyPinsTheCache` | src/core/single-flight-cache.ts:8-19 | runs of requests and completions that begin with the empty key leave every key cached, any number of them |
| `SingleFlight.BypassBreaksIff` | src/core/single-flight-cache.ts:9-12 | a request keeps the keys in `inflight` and the running loaders in step exactly unless it bypasses a loader in flight for its key |
| `SingleFlight.OvertakingStartsSecondLoader` | src/core/single-flight-cache.ts:9-15 | in every run, the first request that does so leaves two unsettled loaders for its key, and `inflight` names the newer |
| `SingleFlight.SettlingForgetsTheOther` | src/core/single-flight-cache.ts:15 | when the handler of one of two loaders for a key runs, `inflight` loses the key while the other is unsettled |
| `SingleFlight.SingleFlightCache.GetWithMeta` | src/core/single-flight-cache.ts:8-16 | cache hit, joined flight or new flight |
| `SingleFlight.SingleFlightCache.Set` | src/core/single-flight-cache.ts:19 | store and evict the oldest key |
| `SingleFlight.SingleFlightCache.OnLoaded` | src/core/single-flight-cache.ts:12 | a loader completes |
| `SingleFlight.SingleFlightCache.OnError` | src/core/single-flight-cache.ts:12-15 | a loader fails: stale answer or failure |
| `SingleFlight.SingleFlightCache.OnFinally` | src/core/single-flight-cache.ts:15 | the key leaves `inflight` |
| `Packet.RoundTripIff` | src/protocol/packet.ts:3-13 | a built packet always parses, and to its own code with a valid length exactly when the code has at most four digits and the payload at most 999999 bytes |
| `Packet.PartsRoundTrip` | src/protocol/packet.ts:4-12 | packets built from separator-free parts give back those parts |
| `Packet.PartsJoinToPayload` | src/protocol/packet.ts:5-12 | of whatever parses, the parts join back to the payload |
| `Packet.LongPayloadIsDetected` | src/protocol/packet.ts:4-12 | an oversized payload shifts the header and is reported as a wrong length |
| `Packet.LongCodeIsCut` | src/protocol/packet.ts:4-8 | an oversized code reads as its first four digits |
| `Packet.SplitAfterJoin` | src/protocol/packet.ts:11 | splitting undoes joining |
| `Packet.JoinAfterSplit` | src/protocol/packet.ts:11 | joining undoes splitting |
| `WireFormat.PacketIsLaid` | src/protocol/packet.ts:4 | a packet within the field widths is escape and tab, four digits of code, six digits of byte length, two zeros and the payload |
| `WireFormat.RebuildIff` | src/protocol/packet.ts:4-13 | a packet with decimal fields that parses is what the builder makes of its code and payload field exactly when its length is valid and its filler is two zeros |
| `WireFormat.ParseVerdict` | src/protocol/packet.ts:6-9 | which texts are refused, and with which error |
| `WireFormat.PartsAreFed` | src/protocol/packet.ts:10-12 | the parts are what follows each form feed of the payload field, and what stands before the first is in none |
| `Utf8.ByteLengthIsEncodedLength` | src/protocol/packet.ts:3 | the byte length is the length of the encoding |
| `Utf8.EncodingDeterminesText` | src/protocol/fixture-replay.ts:3-4 | well-formed text is determined by its bytes |
| `Utf8.RepairFacts` | src/protocol/fixture-replay.ts:3 | replacing every unpaired surrogate by U+FFFD makes a text well-formed and leaves its encoding as it is |
| `Utf8.RepairIff` | src/protocol/fixture-replay.ts:3 | that changes a text exactly when it is not well-formed |
| `Utf8.DecodingRepairs` | src/protocol/fixture-replay.ts:3-4 | decoding what was encoded gives the text with its unpaired surrogates replaced |
| `Utf8.SurvivesIff` | src/protocol/fixture-replay.ts:3-4 | a text survives encoding and decoding exactly when it has no unpaired surrogate |
| `Utf8.DecodedIsValid` | src/protocol/fixture-replay.ts:4 | whatever decodes is the encoding of a well-formed text |
| `WireFormat.EncodedIff` | src/protocol/fixture-replay.ts:3 | the encodings of characters are exactly the entries of the table in section 4 of RFC 3629, each for the character whose bits it carries |
| `WireFormat.PairsAreInOrder` | src/protocol/fixture-replay.ts:3 | surrogate pairs stand, in their order, for U+10000 to U+10FFFF |
| `WireFormat.CharacterByCharacter` | src/protocol/fixture-replay.ts:3 | text is encoded character by character, and a surrogate outside a pair as EF BF BD |
| `FixtureReplay.ReadsBackIff` | src/protocol/fixture-replay.ts:2-4 | reading an encoding gives the packets back exactly when each has 1..4194304 bytes |
| `FixtureReplay.WritesBack` | src/protocol/fixture-replay.ts:3-4 | whenever reading succeeds, on arbitrary bytes, re-encoding reproduces the input |
| `FixtureReplay.TextsReadBackIff` | src/protocol/fixture-replay.ts:2-4 | texts come back from the file exactly when each encodes to 1..4194304 bytes and has no unpaired surrogate |
| `FixtureReplay.TextsWriteBack` | src/protocol/fixture-replay.ts:3-4 | whenever texts are read from a file of valid UTF-8, writing them reproduces the file |
| `FixtureReplay.ReadPacket` | src/protocol/fixture-replay.ts:4 | one round of the reading loop: the header, the packet after it, or the error |
| `FixtureReplay.BigEndianRoundTrip` | src/protocol/fixture-replay.ts:3-4 | the length header round trips in both directions |
| `WireFormat.HeaderIff` | src/protocol/fixture-replay.ts:3-4 | the length header is the four bytes that spell the length, the most significant first |
| `WireFormat.ReaderVerdict` | src/protocol/fixture-replay.ts:4 | every buffer is packets of 1..4194304 bytes behind their lengths and then nothing, or a rest at which the reader stops with the error that rest calls for |
| `WireFormat.ReadsUntilStop` | src/protocol/fixture-replay.ts:4 | and every such packets and rest are read so |
| `FixtureReplay.EncodeFixturePackets` | src/protocol/fixture-replay.ts:3 | the writing loop |
| `FixtureReplay.ReadFixtureBuffer` | src/protocol/fixture-replay.ts:4 | the reading loop terminates on every input, with each of its errors |
| `RateLimit.AnyMinuteIsBounded` | src/server/rate-limit.ts:9-14 | until a live window of the key itself is evicted, any half-open 60-second interval lets at most 2 * perMinute - 1 of its calls through |
| `RateLimit.ClosedMinuteKeepsLimit` | src/server/rate-limit.ts:9-14 | a minute that begins when no window of the key is open lets at most perMinute of its calls through |
| `RateLimit.KeepsLimitIff` | src/server/rate-limit.ts:9-14 | every minute of every run that spares the key stays within perMinute exactly when perMinute is at most 1 (or the map has no room at all) |
| `RateLimit.MinuteBoundIsTight` | src/server/rate-limit.ts:9-14 | for every positive limit and every key, some run without evictions reaches that bound |
| `RateLimit.PruningIsInvisible` | src/server/rate-limit.ts:9-18 | until a live window of the key itself is evicted, its answers are those of a limiter that never forgets |
| `RateAnswers.AnswerIsExact` | src/server/rate-limit.ts:8-14 | in every run that spares the key its answers are read off the times of its calls: the first perMinute of each minute are let through, `remaining` says how many are left and `resetMs` when a minute from the first is over |
| `RateAnswers.PromiseIsKept` | src/server/rate-limit.ts:8-14 | until `resetMs` have passed the key's later calls are let through exactly while fewer than `remaining` have come since; the first one after that starts a full minute |
| `RateAnswers.EveryPruneForgets` | src/server/rate-limit.ts:9-17 | every 1024th call leaves only windows seen within the last minute |
| `RateLimit.FewKeysEvictNothing` | src/server/rate-limit.ts:12-21 | that never happens while no more than maxEntries keys call within any minute |
| `RateLimit.MapIsBounded` | src/server/rate-limit.ts:12-21 | whatever the clock does, the map holds at most maxEntries keys after every call |
| `RateLimit.EvictionKeepsNewest` | src/server/rate-limit.ts:18-21 | an eviction leaves floor(0.8 * maxEntries) windows, none of them older than one dropped |
| `RateLimit.EvictionRestartsKey` | src/server/rate-limit.ts:10-20 | in every state, once a live window of a key is evicted its next call is counted as the first of a new minute |
| `RateLimit.FirstEvictionIff` | src/server/rate-limit.ts:10-20 | after the first call that may evict the key, its next call is counted as by a limiter that never forgets exactly if its window was spared or is over |
| `RateLimit.EvictionVoidsBound` | src/server/rate-limit.ts:9-20 | with evictions there is no bound: for every positive perMinute and every maxEntries, some run at one moment lets any number of calls of a key through |
| `RateLimit.FixedWindowRateLimiter.Allow` | src/server/rate-limit.ts:9-14 | answer and whole new state of one call |
| `RateLimit.FixedWindowRateLimiter.Prune` | src/server/rate-limit.ts:16-21 | the two deletion loops |
| `RateLimit.FixedWindowRateLimiter.Expire` | src/server/rate-limit.ts:17 | the loop over expired windows |

## Left out

- HubDelivery.DeliveredOrGapped: exactly once, for clients that do not resume; with resumes `HubCoverage.OwedIsCovered` states at least once, since a resume may send an event again.
- HubReferences.ReferenceConservation: excludes late unsubscribes of streams still listed and pooled (`StepConservesIff` shows that exactly those break it) and `pin`, for which `PinLeavesTimerArmedIff` and `PoolPins` say what holds. `unpin` is not modelled.
- SingleFlight.AtMostOneLoader: excludes a request that bypasses a loader in flight for its key; `BypassBreaksIff` shows that exactly those break it. `delete` and `clear` are not modelled.
- RateLimit.AnyMinuteIsBounded: holds until a live window of that key is evicted; `EvictionVoidsBound` shows that there is no bound after that.
- DedupExpiry.ExpiryIsInvisible: holds until an unexpired occurrence of the identity is evicted; `NoRoomSuppressesNothing` shows that the premise is needed, `FewRecentEvictNothing` when it holds.
- Packet.RoundTripIff: JavaScript's `Number(...)` on header fields is a parameter required only to read decimal digits as decimals.
- ProtocolDrift.ProtocolDriftDetector.Evaluate: leaves out the incident's random id, ISO dates, signatures and the sample lists, and the insertion order of the two tallies.
- ProtocolDrift.CountersCountTheWindow: `snapshot()`, which prunes before it reports, is not modelled.
- FixtureReplay.ReadFixtureBuffer: returns bytes; `ReadTexts` decodes them where they are valid UTF-8, and the text that Node substitutes for invalid bytes is not modelled.
- CircuitBreaker.Breaker.RecordFailure: leaves out the running totals of outcomes, latency, timestamps and error text, which no decision reads.
- ConnectionPool.Pool.Acquire: leaves out the chat connections themselves; native and mirror lifecycles, gap records and event counters are not part of this model.
- Confidence.ConfidenceIsCapped: takes the time skew as an input; midpoints and time-decayed weights are not part of this model.
- The deduplicator's occurrence objects carry the number of the call that created them, which stands for object identity in the eviction set.
- JSON text of commands and frames, id validation, connection-count limits, failed `send`, `close` of hub and pool, metrics.
- The catalog name and decimal text of an event code are fields of the modelled event.
- Floating-point rounding: weights, ratios and medians are exact reals, times are integers.
- The overall score across fields, picking of a source, and `liveConsensus` / `channelConsensus` assembly.
- Hashing, sessions, HTTP routing, providers, opcode decoders and normalisers, snapshot validation, the raw packet store (its ring is the one proved here), configuration.
