# gossip-mesh: a verified model of the gossip core

A Dafny model of the core of gossip-mesh, a Plumtree-style broadcast library:
the ordered applier with its gap timers and repair, duplicate detection under
concurrency, the lazy batch and eager stream codecs, the gossip engine of a node,
a whole cluster of such nodes over a network that loses and reorders messages,
the RTT-based choice of eager and lazy peers, and the object store together with
the protocol by which nodes agree on a certificate authority.

`dafny verify dfyconfig.toml` checks everything.

## How it is built

State machines are total step functions over event datatypes. An event that
cannot happen in a state leaves it unchanged, so a theorem about every list of
events is a theorem about every run. Code that updates things in place is a
class or a method proved against those same functions, so what is proved of the
functions holds of the imperative code.

| files | what they hold |
|---|---|
| `OrderedSlot`, `OrderedRuns`, `OrderedLedger`, `OrderedLimits`, `OrderedFeed`, `OrderedWork`, `GapResolution`, `OrderedApplier` | one topic of the applier as a state machine; order, conservation, where order ends, when entries are stranded, how gaps resolve, how long timers and repairs go on; the class |
| `SeenTracker`, `SeenRace`, `SeenHistory`, `SeenInOrder`, `SeenProgress` | the duplicate detector as a class, and as threads whose loads and swaps interleave |
| `Wire`, `LazyBatch`, `LazyBatchCut`, `LazyBuffer`, `EagerStream`, `RepairManager`, `WireLayout` | bytes on the wire, what a cut batch is answered with, per-peer buffers, gap repair |
| `GossipNode`, `GossipEngine` | one node as functions, and as a class that refines them |
| `Cluster`, `ClusterForward`, `ClusterMarks`, `ClusterProvenance`, `ClusterSuppression`, `ClusterFlood`, `ClusterCopies`, `ClusterApplier`, `ClusterDelivery`, `ClusterRepair`, `ClusterWork`, `ClusterConvergence`, `ClusterOutcome`, `ClusterStart` | many nodes and a network |
| `Division`, `Flags`, `Sampling`, `RTTClusters`, `OverlayRules`, `Overlay` | peer classification |
| `ObjectStore`, `ClusterCA` | conditional writes, and agreement on a certificate authority |

## Main results

* **The applier.** Deliveries of a topic strictly increase over every
  interleaving of arrivals, timers, repair hits and misses, as long as no arrival
  jumps over buffered entries (`OrderedDelivery`). An arrival leaves order intact
  for every continuation exactly when it does not jump over buffered entries
  (`OrderSurvivesIff`, and `JumpExample` for a run that delivers 100, 101, 3).
  Exactly two kinds of event strand buffered entries, and exactly a reset or an
  arrival that is not too old ends it (`StrandsIff`, `StrandedUntil`,
  `StrandedIff`). With no hypothesis at all, every item received is accounted for
  exactly once (`Conservation`).
* **The cluster.** A flood ends within a bound computed from its start, whatever
  timers and repairs happen in between (`FloodTerminates`), and ends at rest
  (`StopsAtRest`). On each path a node forwards a number to a peer at most once
  per time it took the number (`ForwardedAtMostOnce`). Lazy suppression never
  holds back what the peer would accept (`LosslessSuppression`), and survives a
  rollback exactly when no mark that is too high is recorded or in flight
  (`RollbackLosslessIff`); what a flush tells a peer of the sender's marks, the
  peer knows for good (`FlushTeaches`). Everything delivered anywhere was enqueued, and nodes
  agree on payloads (`Provenance`, `Agreement`). Every topic of every node is a
  run of the one-topic applier fed with exactly what the node accepted
  (`Projection`); exactly the arrivals in increasing order are fed to it
  (`HandedOnIff`), what comes late is delivered by repair or never
  (`LateNeverDelivered`), and without repairs what was accepted is delivered or
  buffered, each entry once (`AcceptedEndsUp`), and delivered for good by enough
  missed fires of the gap timer (`MissedFiresDeliverAll`). Timers and repairs come
  to an end as well: 4 v^2 + 6 v of them per node and topic, for numbers below v,
  in every run without a reset of the node (`TopicWorkBounded`). In a run without losses, a cluster
  at rest has broadcast every entry along the overlay (`Broadcast`,
  `MarkIsLargest`, `LargestArrives`). These results start from any state that
  meets the condition they name; nodes primed with initial numbers, as after
  bootstrap, meet each of them (`ClusterStart`).
* **The overlay.** The exact condition under which every RTT cluster has an eager
  peer (`RegionDiversity`) and under which the eager count is
  min(maxEager, n - minLazy) (`EagerCountClosedForm`); the count itself in every
  other case (`SplitExactly`). Every peer of the capped list is published on
  exactly one side (`Reclassify`), and a full overlay has exactly maxEager and
  maxLazy of them under the same condition (`FullFanOut`).
* **Concurrency.** The duplicate detector is linearizable (`Linearizable`,
  `HistoryIsProper`) and lock-free: a call ends within five of its steps plus two
  for every mark that other threads change meanwhile (`CallsEnd`). Any
  number of threads racing through 1..n accept exactly n (`ExactlyNAccepted`).
* **Agreement on a CA.** All nodes that return agree on one matching pair
  (`ClusterCA.Agreement`), and a node can still return exactly when the winner of
  the first write is alive (`ReturnsIffWinnerAlive`). Once the pair is stored,
  every node that does not crash returns it after at most four steps of its own,
  whatever the others do (`EveryoneReturns`, and `WinnerFinishes`,
  `FirstNodeReturns` for how it gets stored).
* **The wire.** Besides the round trips, where every byte of every message stands
  (`BatchLayout`, `EagerLayout`, `RequestLayout`), and the error for every cut of
  every batch (`CutInEntries`, `CutInMarks`).

## Where the code and its documentation differ

The model follows the code. Paths here and below are those of the gossip-mesh
repository, its own `README.md` included.

* `README.md:24` says the overlay guarantees an eager peer in every RTT cluster.
  The code gives one exactly when there is a single cluster or there are no more
  clusters than min(maxEager, n' - minLazy), n' being the capped number of peers.
* `README.md:16` says lazy peers get summaries only. The code sends them whole
  entries in batches (`engine/engine.go:395-419`).
* `engine/ordered.go:76-78` says remaining entries are not stranded. A timer that
  wakes up after something was delivered stops without starting another, and a
  repaired entry that is no longer missing is dropped; both can leave entries with
  neither timer nor repair (`StrandsIff`; `StaleTimerExample`, `StaleHitExample`,
  and `StrandedExample` at a node).
* `README.md:28` promises in-order delivery. A jump over buffered entries ends it
  (`OrderSurvivesIff`).
* `README.md:28` says arrivals out of order are buffered until the gap is filled.
  Duplicate detection keeps only the highest number, so an entry that arrives
  after a higher one of its topic is rejected as a duplicate before it reaches the
  buffer, even when the applier waits for exactly that one (`HandedOnIff`,
  `LateExample`). An arrival never releases an entry that the node accepted
  (`ArrivalReleasesItself`, `ArrivalReleasesNoneTaken`): only a repair does, or the
  skip after a missed one.
* `bootstrap/tls.go:46-49` expects the losers of the race to fetch what the winner
  wrote. If the winner stops between its two writes, they retry for ever
  (`ReturnsIffWinnerAlive`, `OrphanExample`).

## Model

| member | source | states |
|---|---|---|
| `OrderedSlot.DrainIsRun` | engine/ordered.go:79-88 | draining hands on exactly the maximal run of consecutive buffered numbers from `next` on, and keeps every other buffered entry |
| `OrderedSlot.StepProvenance` | engine/ordered.go:43-146 | whatever a step delivers or keeps is the entry that just arrived or was buffered under that number, payload included |
| `OrderedRuns.StepOneTimer` | engine/ordered.go:53-57 | the flag is set exactly when a timer is asleep, and no topic ever has two asleep, for every event |
| `OrderedRuns.OrderedDelivery` | engine/ordered.go:43-146 | over every interleaving without resets in which no arrival jumps over buffered entries, deliveries strictly increase, everything delivered is below `next`, and the buffer stays inside the window above `next` |
| `OrderedRuns.NextNeverDecreases` | engine/ordered.go:60-74 | along every such run `next` never moves back, between any two points of it |
| `OrderedRuns.WindowBoundsPending` | engine/ordered.go:50-52 | a buffer inside the window holds at most maxGapBuffer entries |
| `OrderedLedger.Conservation` | engine/ordered.go:43-146 | over any run from any state, the multiset of items received equals delivered plus dropped as old plus overwritten plus cleared by resets plus still buffered |
| `OrderedLedger.DeliversLastStored` | engine/ordered.go:79-88 | every delivery of any run is the arriving entry itself or carries the last payload buffered under its number |
| `OrderedLimits.OrderSurvivesIff` | engine/ordered.go:60-66 | every continuation after an arrival delivers in order if and only if the arrival does not jump over buffered entries |
| `OrderedLimits.JumpBreaksOrder` | engine/ordered.go:122-135 | after any jump over buffered entries there is a continuation, itself without such jumps, that delivers a lower number after a higher one |
| `OrderedLimits.JumpExample` | engine/ordered.go:60-66 | a run of six events that delivers 100, 101 and then 3, and leaves `next` at 4 |
| `OrderedLimits.StrandsIff` | engine/ordered.go:43-135 | from any slot whose entries are not stranded, an event leaves buffered entries with neither timer nor repair if and only if it is a timer that wakes up after `next` moved while no repair is under way, or the last repair hit at a number below `next` while no timer is asleep |
| `OrderedLimits.StrandedUntil` | engine/ordered.go:43-74 | stranded entries stay so, and nothing at all changes, until exactly a reset or an arrival at or above `next` |
| `OrderedLimits.StrandedIff` | engine/ordered.go:43-146 | over every run, entries are stranded at its end if and only if some event stranded them and no later one rescued them |
| `OrderedLimits.StaleTimerExample` | engine/ordered.go:104-119 | arrivals 3 and 100 and a timer leave entry 3 buffered with no timer and no repair |
| `OrderedLimits.StaleHitExample` | engine/ordered.go:104-119 | arrivals 3, 100 and 101, two timers and a repair hit at 1 that comes too late leave entry 3 the same way |
| `GapResolution.GapsResolve` | engine/ordered.go:79-135 | from any slot whose buffered numbers are all above `next`, however far, with its timer asleep at `next`: with no further arrivals, any mix of repair hits and misses delivers all buffered entries with their payloads in increasing order and ends with no timer, within the distance to the highest buffered number |
| `GapResolution.MissesCountRuns` | engine/ordered.go:122-135 | from any such slot, when every repair misses, the buffer is resolved after n fires if and only if n is at least the number of maximal runs of consecutive buffered numbers |
| `OrderedWork.WorkBounded` | engine/ordered.go:43-135 | over every interleaving without resets and with numbers below a bound, the timers that wake up and the repairs that end are at most an account computed from the initial slot plus twice the arrivals |
| `OrderedApplier.Applier.DrainRun` | engine/ordered.go:80-88 | the loop hands out and deletes exactly the run of consecutive entries; other topics are untouched |
| `OrderedApplier.Applier.DrainPending` | engine/ordered.go:79-101 | ends in the slot and with the deliveries of the specification's drain, a timer started if entries remain |
| `OrderedApplier.Applier.Receive` | engine/ordered.go:43-74 | all four branches end in the specified slot and deliveries; other topics are untouched |
| `OrderedApplier.Applier.LowestPending` | engine/ordered.go:123-130 | the search finds the lowest buffered number, or the sentinel |
| `OrderedApplier.Applier.SkipGap` | engine/ordered.go:122-135 | moves to the lowest buffered entry and drains, as specified |
| `OrderedApplier.Applier.SetNextSeq` | engine/ordered.go:139-146 | sets `next` and empties the buffer of that topic only |
| `OrderedApplier.Applier.TimerWakes` | engine/ordered.go:104-113 | clears the flag, and asks for a repair exactly when `next` is where the timer left it |
| `OrderedApplier.Applier.RepairEnds` | engine/ordered.go:114-118 | a hit goes through the receive path at the missing number; a miss skips the gap |
| `SeenTracker.Tracker.ShouldProcess` | engine/seen.go:26-40 | accepts exactly the numbers above the mark and moves the mark there; the index stays complete |
| `SeenTracker.Tracker.SetTopicSeq` | engine/seen.go:71-78 | sets one mark, to zero as well, and keeps the index complete |
| `SeenTracker.Tracker.HighWaterMarks` | engine/seen.go:56-67 | the scan of the index lists every topic with a mark once, with its current value, and nothing else: what a scan of all topics would list |
| `SeenRace.Linearizable` | engine/seen.go:26-40 | for any number of threads and any interleaving of loads, swaps and assignments, running the calls one at a time in the order of their decisive steps gives the same answers and marks |
| `SeenHistory.HistoryIsProper` | engine/seen.go:26-40 | in every interleaving each thread makes one call after the other, each call is decided exactly once, for its own number, between its beginning and its return, and the decisive steps in order are the calls as they take effect |
| `SeenHistory.DecidedInside` | engine/seen.go:26-40 | every decisive step has its own beginning of a call of the same thread and number before it, with nothing else of the thread in between |
| `SeenRace.OneAnswerEach` | engine/seen.go:26-40 | for every number, answers and threads still busy with it are together as many as the offers of it |
| `SeenRace.AcceptedAtMostOnce` | engine/seen.go:26-40 | without resets, accepted numbers of a topic strictly increase in that order, so each is won at most once |
| `SeenRace.FinalMarkIsMaximum` | engine/seen.go:26-40 | once no offer is in flight, each mark is the largest of its initial value and everything offered |
| `SeenRace.IndexComplete` | engine/seen.go:80-93 | under every interleaving, resets to zero included, a topic with a mark is indexed or some thread is between writing the mark and indexing it |
| `SeenInOrder.NothingSkipped` | engine/seen_test.go:63-95 | if every thread offers 1, 2, ... in order, the accepted numbers under every schedule are exactly 1 up to the mark, in order |
| `SeenInOrder.ExactlyNAccepted` | engine/seen_test.go:63-95 | when all threads have finished n offers each, exactly n were accepted among all of them |
| `SeenProgress.CallsEnd` | engine/seen.go:26-93 | a call still going on has taken fewer steps of its own than it had left (four from the load, five when its swap is bound to fail) plus two for each mark changed by another thread meanwhile |
| `SeenProgress.InterferenceIsProgress` | engine/seen.go:33-39 | whoever changes a mark has an offer accepted or an assignment made with that very step |
| `Wire.BEAt` | engine/batch.go:85-103 | byte i of an n-byte integer is its digit of weight 256^(n-1-i) |
| `LazyBatch.BatchRoundTrip` | engine/batch.go:78-166 | parsing the bytes of any expressible batch gives the batch back and leaves whatever follows it |
| `LazyBatch.BatchReencodes` | engine/batch.go:111-166 | any byte string that parses starts with exactly the encoding of what it parses to |
| `LazyBatch.AcceptsIff` | engine/batch.go:111-166 | the parser accepts a byte string as a batch if and only if it is the encoding of that batch followed by anything |
| `LazyBatch.Serialize` | engine/batch.go:78-106 | the appending loops build exactly the specified bytes |
| `LazyBatch.ReadEntry` | engine/batch.go:129-144 | one entry is read within bounds, or refused with the error of the specified parser |
| `LazyBatch.ParseEntriesLoop` | engine/batch.go:124-145 | the offset loop stays in bounds and agrees with the specified parser, in its errors too |
| `LazyBatch.ParseMarksLoop` | engine/batch.go:150-163 | the same for the marks |
| `LazyBatch.Deserialize` | engine/batch.go:111-166 | the decoder agrees with the specified parser on every byte string |
| `LazyBatch.FrameRoundTrip` | engine/batch.go:170-199 | a framed block within the size limit is read back whole, and what follows it is left |
| `LazyBatch.BatchOverTheWire` | engine/batch.go:170-199 | for any compression that its decompression inverts, a batch written to a stream is read back as the same batch if and only if its compressed form is within 16 MB |
| `WireLayout.BatchLayout` | engine/batch.go:78-106 | byte by byte: the entry count in two bytes, each entry (topic, number, payload length, payload) right behind the one before, the mark count, ten bytes per mark, nothing else, all big-endian |
| `WireLayout.EagerLayout` | engine/engine.go:468-475 | byte by byte: frame length, 0x02, topic, number, payload |
| `WireLayout.RequestLayout` | engine/repair.go:111-115 | byte by byte: 0x16, topic, number |
| `LazyBatchCut.CutInEntries` | engine/batch.go:124-145 | a batch cut inside entry j is refused as truncated in that entry if the cut is in its 14 byte header, and in its payload otherwise |
| `LazyBatchCut.CutInMarks` | engine/batch.go:147-163 | a batch cut in the mark count or inside mark j is refused with exactly that error |
| `LazyBuffer.LearnIsMaximum` | engine/batch.go:52-58 | learning marks leaves, per topic, the maximum of what was known and what was said |
| `LazyBuffer.PeerBuffer.Add` | engine/batch.go:32-36 | holds back exactly what the peer is known to have seen, and appends the rest |
| `LazyBuffer.PeerBuffer.Flush` | engine/batch.go:39-43 | hands out all entries in order and keeps what is known of the peer |
| `LazyBuffer.PeerBuffer.UpdatePeerSeqs` | engine/batch.go:52-58 | the loop learns the marks as specified and leaves the entries alone |
| `EagerStream.EagerRoundTrip` | engine/engine.go:468-486 | decoding a stripped eager message gives the entry back, and every message that decodes is the encoding of what it decodes to |
| `EagerStream.ReadNext` | engine/eager_stream.go:84-94 | one frame is read within bounds, or refused when cut off or too large |
| `EagerStream.ReceiveEagerStream` | engine/eager_stream.go:81-103 | the loop hands on exactly the stripped frames of the stream, and stops at the first that is cut or too large |
| `EagerStream.CutStreamYieldsPrefix` | engine/eager_stream.go:81-103 | the stream cut at any byte yields exactly the entries whose frames are whole, in order |
| `EagerStream.StreamRoundTrip` | engine/eager_stream.go:54-67 | the receiver gets exactly the list that was sent if and only if every message fits into a frame |
| `EagerStream.OversizeStops` | engine/eager_stream.go:87-90 | after a message that does not fit, nothing more is handed on |
| `EagerStream.FramesHandedOn` | engine/eager_stream.go:81-103 | whatever messages are framed, each is handed on in order, without its first byte if and only if that is 0x02 |
| `RepairManager.PullIsLookup` | engine/repair.go:57-135 | request and response together return exactly what the peer has cached for the number, an empty payload included |
| `RepairManager.PullsAreLookups` | engine/repair.go:83-135 | over the wire, the first hit is the first of the first three caches that holds the number, with the payload cached there |
| `RepairManager.FoundIffCached` | engine/repair.go:83-135 | a repair finds the number if and only if one of the first three peers has it cached |
| `RepairManager.CutRequestFails` | engine/repair.go:57-64 | a request cut short gets no answer, which is a failed pull and not a miss |
| `RepairManager.Manager.CacheEntry` | engine/repair.go:39-52 | a cache at its bound first gives up one entry, any other none; then the entry is cached; nothing else changes and the bound holds |
| `RepairManager.Manager.RequestRepair` | engine/repair.go:83-98 | a repair is found if and only if one of the first three pulls is a hit; the payload of the least such pull reaches the applier as a receive at the missing number; otherwise nothing changes |
| `GossipNode.EnqueueLazyAt` | engine/engine.go:375-392 | a listed lazy peer's buffer gets the entry unless the peer is excluded or known to have it, and then, as for a peer not listed, the buffer stays as it is; nothing known of peers changes |
| `GossipNode.EagerSendsAt` | engine/engine.go:329-359 | every eager peer but the excluded one is sent the entry, and nobody else is sent anything |
| `GossipNode.InitialSeqMeans` | engine/engine.go:244-250 | after an initial number is set, everything up to it is rejected without effect and the next number is delivered on arrival |
| `GossipNode.LateExample` | engine/engine.go:269-291 | entry 3, then entry 2 while the applier waits for 2: entry 2 is rejected and the applier goes on waiting |
| `GossipNode.FlushPeersAt` | engine/engine.go:395-426 | a flush empties the buffers of the lazy peers, sends each peer with a non-empty buffer exactly that buffer, once, with the marks, sends no empty batch, and changes nothing else |
| `GossipNode.FlushWhole` | engine/engine.go:395-426 | over all lazy peers of the node: every message of a flush carries exactly the marks given and the whole buffer of its peer, each peer with something buffered gets exactly one, its buffer is empty then, and all else stays |
| `GossipNode.MsgNotSentBack` | engine/engine.go:286-324 | the peer named as the origin of a message is sent nothing of it, and nothing is buffered for it |
| `GossipEngine.Engine.EagerForward` | engine/engine.go:329-359 | sends one copy to each eager peer except the excluded one, in order |
| `GossipEngine.Engine.EnqueueForLazy` | engine/engine.go:375-392 | the loop fills the buffers as specified |
| `GossipEngine.Engine.HandleLocalEntry` | engine/engine.go:253-265 | the new node state and messages are exactly those of the specified local handler, with the entry the cache gave up, if full, as its choice |
| `GossipEngine.Engine.OnEagerReceive` | engine/engine.go:269-291 | a message that does not decode changes nothing; any other has exactly the specified effect, with at most one entry evicted |
| `GossipEngine.Engine.OnLazyBatchReceive` | engine/engine.go:294-323 | a batch that cannot be read changes nothing; any other first teaches its marks and then has its entries handled in order, exactly as specified, with at most one eviction per entry |
| `GossipEngine.Engine.FlushLazyBatches` | engine/engine.go:395-426 | flushes as specified, with a complete list of the marks the node has then; what that means message by message is `GossipNode.FlushWhole`, and at the receiver `ClusterSuppression.FlushTeaches` |
| `GossipEngine.Engine.SetInitial` | engine/engine.go:247-250 | sets the mark and the applier's next number, and clears that topic's buffer |
| `ClusterProvenance.Provenance` | engine/engine.go:253-323 | in every run from a cluster that holds no entry, whatever its marks, every entry in a message, buffer, cache, reorder window or delivery log was enqueued in that run |
| `ClusterProvenance.Agreement` | engine/engine.go:253-323 | if producers give each number one payload, nodes that deliver a number deliver the same payload, by whatever path it came |
| `ClusterSuppression.AlwaysTruthful` | engine/engine.go:301-307 | in every run without rollback, recorded marks and marks in flight never exceed the true marks of the node they are about |
| `ClusterSuppression.LosslessSuppression` | engine/batch.go:32-58 | in every run without rollback from a cluster whose recorded marks are true, whatever a buffer holds back its peer would reject, then and ever after |
| `ClusterSuppression.RollbackLosslessIff` | engine/engine.go:247-250 | after a rollback of a node to s, suppression is lossless in every continuation without another rollback if and only if no node has recorded a higher mark of it and no batch in flight from it, to a node that can learn from it, carries one |
| `ClusterSuppression.RollbackExample` | engine/engine.go:247-250 | a run of a fresh cluster of two: after a batch has arrived, a rollback from 5 to 3 makes the other node hold back entries that would be accepted |
| `ClusterSuppression.InFlightExample` | engine/engine.go:301-307 | the same run with the rollback before the batch arrives: nothing is held back then, but is once it arrives |
| `ClusterSuppression.BatchTeaches` | engine/engine.go:301-307 | after a batch from a peer with a buffer, the node knows at least every mark the batch carried |
| `ClusterSuppression.FlushTeaches` | engine/engine.go:395-426 | once any batch of a flush arrives, however late, at a node with a buffer for the sender under its own label, that node knows every mark the sender had when it flushed, from then on in every run |
| `ClusterSuppression.StrangerTeachesNothing` | engine/engine.go:301-307 | a batch from a sender without a buffer under its label changes nothing of what the receiver knows |
| `ClusterSuppression.CoversForGood` | engine/batch.go:52-58 | such knowledge is never lost in any run |
| `ClusterSuppression.CoversSuppresses` | engine/batch.go:32-36 | and while it lasts no entry up to the mark is buffered for the peer |
| `ClusterFlood.FloodStepPays` | engine/engine.go:269-426 | every receive, loss and non-empty flush lowers the potential of the cluster |
| `ClusterFlood.FloodTerminates` | engine/engine.go:269-426 | in every run without new entries, resets and overlay changes, the receives, losses and non-empty flushes are at most as many as the initial potential, however the network drops and reorders and whatever timers and repairs happen in between |
| `ClusterFlood.StopsAtRest` | engine/engine.go:395-426 | where no message can be received and nothing flushed, nothing is in flight and every lazy buffer is empty |
| `ClusterFlood.CirculatingExists` | engine/engine.go:269-426 | the bound applies to every cluster whose lazy peers are its own nodes |
| `ClusterForward.AcceptsClimb` | engine/seen.go:26-40 | in every run in which a node's marks are not reset, the numbers it accepts from the network strictly increase per topic |
| `ClusterCopies.ForwardedAtMostOnce` | engine/engine.go:329-426 | over every run whose overlays list no peer twice, for every node, peer and number: copies pushed are at most the node's acceptances and enqueues of the number, and so are copies sent in batches plus copies still buffered (beyond those buffered at the start) |
| `ClusterCopies.AcceptedOnce` | engine/engine.go:269-323 | a node whose marks are not reset accepts a number at most once |
| `ClusterCopies.RelayedOnce` | engine/engine.go:269-426 | so it sends a number it neither produces nor has buffered at the start to each peer at most once by push and at most once in a batch |
| `ClusterForward.SendsAreAdded` | engine/engine.go:329-426 | what counts as sent is exactly what each event adds to the network |
| `ClusterForward.ArrivalNotSentBack` | engine/engine.go:286-324 | a sender known by its own id is sent nothing back when one of its messages arrives, by neither path |
| `ClusterMarks.MarkIsMaximum` | engine/seen.go:26-40 | from any state, without resets, a node's mark is the larger of its initial mark and the largest number of the topic it accepted or enqueued |
| `ClusterApplier.Projection` | engine/engine.go:253-323 | in every run of the cluster, every topic of every node is the one-topic machine run on exactly the entries the node accepted, its timers, its repairs and its resets |
| `ClusterApplier.NodeConservation` | engine/engine.go:269-323 | so everything a node's applier was given is delivered, buffered, dropped, overwritten or cleared, each exactly once |
| `ClusterApplier.OrderedAtNode` | engine/ordered.go:43-146 | and a node that starts in order, from whatever number on, delivers a topic in strictly increasing order while no accepted entry jumps over buffered ones |
| `ClusterApplier.HandedOnIff` | engine/engine.go:276-322 | from any state, of an arriving message, eager or lazy, exactly those entries are handed to the applier, in order, whose number is above the mark the node started with, above every number of the topic it accepted or enqueued since, and above every earlier one of the message |
| `ClusterApplier.DeliveredWasAccepted` | engine/engine.go:269-323 | from any state, without repairs and resets of a node, it delivers only entries it accepted from the network and numbers it had delivered or buffered before |
| `ClusterApplier.LateNeverDelivered` | engine/engine.go:276-284 | once a node's mark has passed a number it did not accept and did not have at the start, no run without repairs and resets of the node delivers that number |
| `ClusterDelivery.AcceptedEndsUp` | engine/engine.go:269-323 | from any state in which a node expects and buffers nothing beyond its mark, while it is neither reset nor repaired: its deliveries of a topic and its reorder buffer gain exactly the entries it accepts, each once |
| `ClusterDelivery.ArrivalReleasesItself` | engine/ordered.go:43-74 | in such a run an accepted entry delivers itself or nothing |
| `ClusterDelivery.ArrivalReleasesNoneTaken` | engine/ordered.go:43-74 | with repairs too and from any state, an accepted entry releases none that the node accepted or enqueued |
| `ClusterDelivery.MissedFiresDeliverAll` | engine/ordered.go:104-135 | after such a run, with a timer asleep at `next` and everything buffered above it, as many missed fires as there are runs of consecutive buffered numbers deliver everything the node accepted and leave nothing buffered |
| `ClusterDelivery.StrandedAtNode` | engine/ordered.go:104-119 | in every run of a cluster, from a node whose entries are not stranded, they are stranded at its end if and only if some event of the topic stranded them and no later one rescued them |
| `ClusterDelivery.StrandedExample` | engine/engine.go:269-291 | a node that accepts entries 3 and 100 and whose timer then wakes up has entry 3 stranded |
| `ClusterRepair.CacheBounded` | engine/repair.go:39-52 | in every run a repair cache within 1024 entries stays so |
| `ClusterRepair.CacheHolds` | engine/repair.go:39-52 | a node whose cache was empty and that accepted and enqueued at most 1024 entries, or fewer than 1024 different ones, has every one of them in its cache |
| `ClusterRepair.RepeatEvicts` | engine/repair.go:42-48 | at a full cache, caching an entry that is already there can lose another, so 1024 different ones are not few enough if one comes twice |
| `ClusterRepair.Repairable` | engine/repair.go:57-98 | in a run from a cluster that holds no entry, if producers give each number one payload, a node that waits for a number, nothing delivered since it asked, has exactly the missing entry delivered next by a hit from any node that took it among that few |
| `ClusterWork.TopicWorkBounded` | engine/ordered.go:104-135 | in every run from a cluster that holds no entry, new entries, losses and overlay changes included, at a node that is not reset: if the numbers of a topic are below v, at most 4 v^2 + 6 v timers of that topic wake up or repairs end |
| `ClusterConvergence.AlwaysSpreading` | engine/engine.go:253-426 | in every run without losses from such a state, what a node has seen its peers have seen, or it is in flight or buffered for them |
| `ClusterConvergence.Broadcast` | engine/engine.go:253-426 | when such a run has come to rest, every node that the overlay connects to a producer is marked at or above every number the producer enqueued |
| `ClusterConvergence.MarkIsLargest` | engine/engine.go:253-426 | at rest, a node reachable from all others has as its mark the larger of its initial one and the largest number enqueued anywhere for the topic |
| `ClusterOutcome.LargestTaken` | engine/engine.go:253-426 | and it has accepted or enqueued an entry with that number, if it is above its initial mark |
| `ClusterOutcome.LargestArrives` | engine/engine.go:253-426 | and, if it was not repaired meanwhile, it enqueued that entry itself, has delivered it, or holds it in its reorder buffer |
| `ClusterStart.FreshIsPrimed` | engine/engine.go:152-201 | new nodes are primed, alike, with no number at all |
| `ClusterStart.PrimingRun` | engine/engine.go:244-250 | any initial numbers set on a cluster that holds nothing leave it holding nothing and primed |
| `ClusterStart.PrimesAlike` | engine/engine.go:244-250 | giving every node the same initial number keeps their marks alike |
| `ClusterStart.PrimedNodeStarts` | engine/engine.go:244-250 | a primed node meets the starting conditions of the results about one node: nothing beyond its mark, in order, nothing held, nothing buffered, not stranded |
| `ClusterStart.PrimedSystemStarts` | engine/engine.go:244-250 | a primed cluster holds no entry, and what its nodes know of each other is true |
| `ClusterStart.PrimedAlikeSpreads` | engine/engine.go:244-250 | a cluster whose nodes were primed alike meets the starting condition of the broadcast results |
| `Sampling.EvenSampling` | overlay/overlay.go:152-161 | for 0 < R <= C the indices i*C/R start at 0, strictly increase, stay below C, and every cluster lies fewer than ceil(C/R) positions above a sampled one |
| `RTTClusters.PickFacts` | overlay/overlay.go:163-182 | picking selects exactly the budget, a prefix together with cluster heads, the nearest peer always, and every cluster head if they fit |
| `RTTClusters.PickedEvenly` | overlay/overlay.go:152-161 | with no more slots than clusters only cluster heads are picked, and every cluster lies fewer than ceil(clusters / slots) behind one whose head is |
| `RTTClusters.ClustersAreTraces` | overlay/overlay.go:265-278 | two picked peers are in one cluster of the picked list if and only if they are in one cluster of the whole list |
| `RTTClusters.RepresentationNeeds` | overlay/overlay.go:265-278 | to have a selected peer in every cluster takes at least as many selected peers as clusters |
| `OverlayRules.CapFacts` | overlay/overlay.go:143-182 | capping keeps exactly min(n, total) peers, the nearest always, and every cluster head if they fit |
| `OverlayRules.SplitIff` | overlay/overlay.go:186-217 | a single cluster makes min(maxEager, n - minLazy) peers eager if and only if no neighbours below that position are exactly at the threshold |
| `OverlayRules.EagerCountClosedForm` | overlay/overlay.go:186-316 | the eager count is min(maxEager, n - minLazy) if and only if there are several clusters or no neighbours below that position are exactly at the threshold |
| `OverlayRules.SplitExactly` | overlay/overlay.go:186-217 | a single cluster of any size: min(minEager, maxEager, n) eager peers up to minEager + minLazy; above, the first gap at the threshold cut at maxEager; without one min(maxEager, n - minLazy) |
| `OverlayRules.LazyCountClosedForm` | overlay/overlay.go:114-135 | the lazy peers are all others, and their number is max(n - maxEager, minLazy) if and only if the eager count has its closed form |
| `OverlayRules.EagerAreNearest` | overlay/overlay.go:186-261 | behind a peer that is not eager only heads of clusters are, and in a single cluster nobody is |
| `OverlayRules.FullFanOut` | overlay/overlay.go:103-135 | with at least maxEager + maxLazy other nodes, exactly maxEager are eager and maxLazy lazy if and only if the kept ones form several clusters or have no neighbours at the threshold between minEager and maxEager |
| `OverlayRules.DefaultFanOut` | overlay/overlay.go:28-41 | positive settings are kept; with none given, that is 8 eager and 6 lazy peers |
| `OverlayRules.ThresholdExample` | overlay/overlay.go:282-316 | three peers with a gap of exactly five milliseconds, of which one becomes eager although two fit |
| `OverlayRules.RegionDiversity` | overlay/overlay.go:79-278 | after capping and choosing, every cluster of the sorted list has an eager peer if and only if there is one cluster or there are no more clusters than eager slots; and then the nearest of each is eager |
| `OverlayRules.DiversityExample` | overlay/overlay.go:219-261 | two peers in two clusters with one eager slot, where one cluster has no eager peer |
| `OverlayRules.ChosenCount` | overlay/overlay.go:223-261 | with several clusters in the original list, exactly max(0, min(maxEager, n' - minLazy)) peers are eager |
| `Overlay.FindRTTClusters` | overlay/overlay.go:265-278 | the loop returns the positions of the list in order, cut exactly where a gap exceeds the threshold |
| `Overlay.PickPerCluster` | overlay/overlay.go:152-176 | the reserving and filling loops select what the specification picks |
| `Overlay.SelectDiversePeers` | overlay/overlay.go:143-182 | returns exactly the capped list, in RTT order |
| `Overlay.FindRTTGap` | overlay/overlay.go:282-316 | the scan finds the first widest gap in its range, or falls back as specified |
| `Overlay.SelectEager` | overlay/overlay.go:186-261 | the returned flags are those of the specification, in all branches |
| `Overlay.Overlay.Reclassify` | overlay/overlay.go:79-136 | the published eager peers are exactly the chosen ones of the sorted list of other nodes; both lists together are the capped list as a multiset, min(n, total) peers, each marked for its list |
| `Overlay.Partition` | overlay/overlay.go:121-135 | every peer goes to exactly one of the two lists, in order, and is marked accordingly |
| `Overlay.OthersExactly` | overlay/overlay.go:83-90 | filtering drops exactly the peers with the own id, and keeps every other as often as listed |
| `Overlay.AllPublishedIfTheyFit` | overlay/overlay.go:79-136 | when the other nodes fit into the slots, each is published as often as it is listed, and nobody else |
| `Overlay.NearestPeersPublished` | overlay/overlay.go:79-136 | when the clusters fit, the nearest peer of each is in the published eager list |
| `Overlay.PublishedOnce` | overlay/overlay.go:79-136 | for a peer list without repeated ids, the published lists hold no id twice, none in both, and not the node's own |
| `ObjectStore.MemoryObjectStore.Put` | objstore/memstore.go:38-64 | the preconditions are decided and the store changed as specified, or left alone on failure; what is decided, told from the history, is `ObjectStore.PutAnswers` |
| `ObjectStore.PutAnswers` | objstore/memstore.go:44-63 | after any history: an unconditional put is always carried out; with IfNoneMatch exactly when the last operation that touched the key is a delete or there is none, else it fails its precondition; with IfMatch it finds nothing exactly then, and fails its precondition exactly when the key was last written under another tag |
| `ObjectStore.PresentIff` | objstore/memstore.go:38-100 | a key is there under a tag if and only if the last operation that touched it is a put that got this tag |
| `ObjectStore.VersionCountsWrites` | objstore/memstore.go:32-36 | the tag counter is the number of puts carried out, modulo 2^64: failed puts and deletes use up none |
| `ObjectStore.FreshETags` | objstore/memstore.go:32-36 | over any history of puts and deletes, no two puts that were carried out have the same entity tag |
| `ObjectStore.NoABA` | objstore/memstore.go:38-64 | a put conditional on the tag of an earlier put is carried out only on the same key and only if nothing wrote or deleted that key in between |
| `ObjectStore.UntouchedMatches` | objstore/memstore.go:38-64 | conversely, on an untouched key such a put is always carried out |
| `ObjectStore.LastWriter` | objstore/memstore.go:38-100 | an object in the store comes, tag and data, from a put that nothing has touched since |
| `ClusterCA.Agreement` | bootstrap/tls.go:25-61 | whatever nodes interleave, fail or crash, all returns agree on the certificate and key of one generation, which the store holds |
| `ClusterCA.KeyPutNeverFails` | bootstrap/tls.go:53-58 | the key write of the node that won the certificate never fails its precondition |
| `ClusterCA.ReturnsIffWinnerAlive` | bootstrap/tls.go:25-61 | with the certificate stored and the key missing, some continuation lets a node return if and only if the node that wrote the certificate is still about to write the key; that nodes then do return is `ClusterCA.WinnerFinishes` and `ClusterCA.EveryoneReturns` |
| `ClusterCA.EveryoneReturns` | bootstrap/tls.go:25-61 | from any reachable state with the pair stored, whatever the others do in between, a node that does not crash has returned exactly this pair if and only if it has taken two own steps from its first read, three from a certificate write, four from generating, one from reading the key |
| `ClusterCA.WinnerFinishes` | bootstrap/tls.go:46-60 | the node that wrote the certificate returns its own pair, then stored, with its next step, whatever the others do, unless it crashes first |
| `ClusterCA.FirstNodeReturns` | bootstrap/tls.go:25-61 | with no certificate stored, a node that is not interrupted returns the pair it generated after four steps, and it is stored |
| `ClusterCA.OrphanExample` | bootstrap/tls.go:46-58 | a run of three steps and a crash after which no node ever returns |

## Left out

- `transport`, `relay`, `natutil`, `mesh`, `s3nat`: connections, dialing and wiring over libraries that are not part of this model.
- `membership`, `holepunch`: callbacks over foreign libraries, polling and dialing.
- Statistics, logging and summaries: observability only.
- `MemoryObjectStore.List` (keys with a prefix), `SetupClusterTLS` (a TLS configuration from the certificate authority), `GetCACert` (a call of the modelled function): each is a filter, a call of foreign code or a wrapper.
- zstd, certificate generation and JSON: zstd appears as any pair of functions of which the second inverts the first; certificate generation as an arbitrary pair.
- Time: sleeping timers wake up whenever the environment chooses, and whether a repair hits is its choice too (in the cluster only if the peer asked has the entry cached).
- Interleavings inside a handler: whole handlers of a node are atomic in the cluster, and whole calls are atomic in the applier, whose receive has no lock in the source.
- The delivery channel: delivering appends to a log; the drop when the channel is full is not modelled.
- Message duplication by the network: the network drops, delays and reorders, but does not duplicate.
- The sender label: the source passes a remote address where node ids are compared, so labels are a parameter of the cluster; results that need it assume only that a label which is some node's id is the sender's own. That a sender gets nothing back is stated for senders whose label is their own id.
- Reads that fail half-way and contexts that end: an object store error or a crash is one event of a node in the CA protocol; a failed stream is a lost message.
- Engine: lazy buffers are values in a map of the engine, so aliasing between buffer objects is not captured; the buffer class is proved apart.
- Overlay.SortByRTT: its contract is any sorted permutation, which is all the library sort promises; the library's algorithm is not modelled.
- Tracker.ShouldProcess: the sequential effect of the swap loop; its retries and races are in `SeenRace`.
- OrderedRuns.OrderedDelivery: assumes sequence numbers below 2^64-1, which the source uses as a sentinel.
- OrderedLimits.OrderSurvivesIff: assumes an arrival below 2^64-2, so that a next number exists.
- OrderedLimits.StrandedIff: assumes arrivals below 2^64-1, the sentinel of the skip.
- ClusterSuppression.RollbackLosslessIff: assumes that the node has no message to itself in flight; the overlay leaves a node out of its own peers (`Overlay.PublishedOnce`).
- ClusterCopies.ForwardedAtMostOnce: assumes overlays that list no peer twice, which is what reclassification publishes for distinct ids (`Overlay.PublishedOnce`).
- ClusterDelivery.AcceptedEndsUp: assumes accepted numbers below 2^64-1.
- ObjectStore.FreshETags: assumes at most 2^64 operations, after which the version counter wraps.
- LazyBatch.BatchRoundTrip: assumes at most 65535 entries and marks and payloads below 2^32 bytes, beyond which the counts on the wire truncate.
- ClusterConvergence.Broadcast: assumes overlays that do not change during the run and no resets; it concludes about marks, because an entry that comes late is not accepted; `ClusterOutcome` says which entry is.
- Cache eviction: which entry a full cache gives up is the environment's choice, fixed ahead as a list in the node's state.
