# NetHex: a Dafny model and its proofs

NetHex inspects packets with one ingestion thread, N worker threads, a lock-free queue per worker and
a shared pool of payload slots. Each worker tracks TCP flows, scans payloads with an Aho-Corasick
automaton whose state survives across segments, and stops inspecting a flow that stays clean.

`dafny verify dfyconfig.toml` checks the whole project.

## What is proved

**Matching.** `PatternSpec` says what multi-pattern matching means without any automaton: at every end
position, every pattern that is a suffix of what was read, longest first, as often as it was added.
`TrieLayout` numbers the trie's nodes by their paths. `PatternMatching` holds the class: trie growth,
the breadth-first compilation with its failure links and merged match lists, and the streaming scan.
The scan returns exactly the naive list, for any carried state; segmentation is irrelevant; every
node enters the queue once; hops over failure links are bounded both in the scan and in compilation.

**The queue.** `BitMask` proves the 64-bit index arithmetic for counters that wrap. `SpscRing` cuts
push and pop into their loads, buffer access and store; every interleaving refines a bounded FIFO and
the two ends never touch one cell. `LockFreeQueues` and `LoadBalancing` are the classes.

**The engine.** `Pipeline` is the state machine of the ingestion loop and the worker loops, one atomic
step per turn, with the shared flag cleared at any moment. `PipelineSteps` and `Engine` keep its
invariant; `EngineTheorems` has the consequences for every interleaving: one place per slot, no
double free, payload integrity, flow order, and what shutdown drains.

**Flows.** `FlowTable` and `FlowVerdict` are the table, the TCP states, eviction, the fast path and the
verdict on values. `WorkerRuns` proves what every entry says about the packets since its creation, in
every run with packets and collections mixed. `ConnectionTracking` and `WorkerNodes` are the classes
with map, list and connection objects, proved against those values. `EndToEnd` joins them with the
engine, for lives with collections anywhere: the verdict on a flow is determined by the capture and by
how many of the flow's packets had been handled when its entry was last dropped, whatever the
interleaving, the number of workers and the hash (`CaptureDecides` compares two runs). An entry is never
dropped, so that the capture alone decides, if every collection finds a packet of the flow at most five
whole seconds old (`NeverDropped`, `CaptureAloneDecides`). `IngestedFrames` adds the parsers: the same in
terms of the captured bytes.

**No deadlock, and an end.** `Progress` shows that ingestion's two waiting loops end once the workers have
had their turns, and that from every state with the flag set a clean end can be reached. `Shutdown` bounds
the steps a worker needs to exit.

**Reassembly.** `Fragments` states it by a key's fragments in order of acceptance; `IpDefragmentation`
has the class, whose byte buffers and coverage bitmaps are filled in place. `Reassembly` feeds it from the
Ethernet and IPv4 parsers and hands the result to the transport parser.

**Decoders.** `DnsNames` relates names to their encodings, `DnsParsing` has the loops, `DnsEncoding` a
writer of compressed questions. `Frames` writes Ethernet, IPv4, TCP and UDP headers, `PacketParsing`
reads them: a byte string is accepted exactly when it is a frame, and the report is what the frame
says. `SniExtraction` reports a server name exactly for the ClientHello messages that hold one.
`Samples` gives one message of each kind byte by byte, with its report.

## Where code and documentation part

- A worker whose pop has just failed tests the flag and leaves (src/main.cpp:95-96) without looking at
  the queue again. If a packet arrives and the flag is cleared in between, the packet is lost although
  ingestion had finished and slept. `LostPacket` is such a run; `DrainedIff` says exactly when a queue
  is drained; `OneStepSuffices` says what the one-second pause (src/main.cpp:248-249) buys: it is
  enough that each worker makes one step in it; `ShutdownCompletes` says what then follows.
- include/dns_parser.h:17 promises an empty vector for a malformed message; the code returns the
  questions before the one it cannot read (`MalformedYetReported`). `PromiseKeptIff` says for which
  malformed messages the promise holds, `ReportedCount` how many questions are reported.
- src/connection_tracker.cpp:125 says that if the oldest flow has not timed out, nothing has. Limits
  differ by state, so it fails, in a run of four packets and a collection (`StaleBehindLongerLimit`);
  `SurvivesIff` is exact.
- include/connection.h:15 has CLOSED mean a reset or two FINs. One FIN closes (`OneFinCloses`), and
  FIN_WAIT is never assigned. The other way round, the rules for the reply to a SYN and for the
  acknowledgement of that reply are tested before teardown: a reset or FIN on the acknowledging packet
  establishes the flow, and one on the SYN+ACK leaves it half open (`ResetDoesNotClose`); flags on the
  opening packet are not looked at either. `ClosedIff` is exact.
- src/main.cpp:182 calls `parse_ipv4` with six arguments; it takes nine. The model follows the parser.

## Modelling choices

Steps are sequentially consistent; that is what the acquire and release pairs of the queue are taken
to give. The pool's mutexed methods are single steps. A comparison belongs to the step of the load it
uses, and copying a payload is one step. The hash is an arbitrary function of the five-tuple; hash maps
are maps. Time is an argument in nanoseconds and does not go back within a run. The flag may be cleared by a
turn at any moment; the drain theorems speak of clearing after ingestion has finished. Bit tests on
flags and header fields are written arithmetically. A C++ buffer with its length is one sequence. The
64-bit counters of queue and flows wrap explicitly. A thrown exception at construction is a null result.

## Model

| member | source | states |
|---|---|---|
| PatternSpec.HitsAtCount | src/pattern_matcher.cpp:88-93 | the naive hit list at a position holds each pattern that is a suffix of the text read, with its multiplicity, and nothing else |
| PatternSpec.HitsAtLongestFirst | src/pattern_matcher.cpp:63-67 | the hit list runs from long to short |
| PatternSpec.AlertsEmptyIff | src/pattern_matcher.cpp:73-97 | there is an alert exactly when some pattern ends inside the text just read |
| PatternSpec.LongestProperSuffix | src/pattern_matcher.cpp:53-61 | the failure target is the longest proper suffix that is a trie path |
| PatternSpec.SegmentationIrrelevant | src/pattern_matcher.cpp:73-97 | remembering only the longest suffix path between segments, the alerts are those of the whole stream |
| PatternSpec.LpsSplit | src/pattern_matcher.cpp:77-86 | the carried state after a segment is that of the whole history |
| PatternMatching.PatternMatcher.constructor | src/pattern_matcher.cpp:5-8 | an empty trie for no patterns |
| PatternMatching.PatternMatcher.AddPattern | src/pattern_matcher.cpp:10-27 | the trie holds exactly the prefixes of the patterns added, numbered by first appearance, with the new pattern marked at its node |
| PatternMatching.PatternMatcher.BuildMachine | src/pattern_matcher.cpp:29-71 | compiles the automaton; each non-root node is enqueued once, in depth order; all failure hops together are at most the total pattern length |
| PatternMatching.PatternMatcher.CloseRoot | src/pattern_matcher.cpp:32-41 | root children fail to the root and are enqueued; missing root edges loop back |
| PatternMatching.PatternMatcher.LinkChildren | src/pattern_matcher.cpp:48-69 | after a node is taken from the queue all its children are linked and enqueued |
| PatternMatching.PatternMatcher.LinkChild | src/pattern_matcher.cpp:53-67 | one child gets its failure link and the merged match list |
| PatternMatching.PatternMatcher.FindFail | src/pattern_matcher.cpp:54-60 | the fail loop stops at the longest proper suffix of the child's path, within the depth budget |
| PatternMatching.FailureLinks | src/pattern_matcher.cpp:59-67 | in a compiled machine each failure link is the longest proper suffix path, and each list is the node's own patterns followed by that node's list |
| PatternMatching.PatternMatcher.NextState | src/pattern_matcher.cpp:77-86 | one byte moves the state to that of the longer history; its list is the naive hit list |
| PatternMatching.PatternMatcher.Search | src/pattern_matcher.cpp:73-97 | returns exactly the naive alerts for the carried history and its state; hops plus final depth at most length plus starting depth |
| PatternMatching.PatternMatcher.LinkFront | src/pattern_matcher.cpp:44-69 | one turn of the queue loop: the front node leaves, its children are linked and enqueued behind the rest |
| PatternMatching.PatternMatcher.SearchSegments | src/pattern_matcher.cpp:73-97 | calling search on any segments in turn with the carried state gives the alerts, the final state and the hop bound of one call on the whole stream |
| BitMask.PowerOfTwoTest | include/thread_safe_queue.h:31-34 | c & (c - 1) vanishes exactly for powers of two |
| BitMask.MaskIsRemainder | include/thread_safe_queue.h:51-53 | masking with capacity - 1 is the remainder by the capacity |
| BitMask.WrappedIndex | include/thread_safe_queue.h:53 | the masked wrapped counter is the unbounded counter modulo the capacity |
| BitMask.WrappedDistance | include/thread_safe_queue.h:47 | wrapped head minus tail is the true occupancy |
| BitMask.WrappedEqual | include/thread_safe_queue.h:70 | wrapped counters are equal exactly when the unbounded ones are |
| BitMask.CellsDiffer | include/thread_safe_queue.h:53-75 | counters less than a capacity apart use different cells |
| SpscRing.NoSharedCell | include/thread_safe_queue.h:51-75 | a writing producer and a reading consumer are at different cells, each with a stale view of the other's index |
| SpscRing.Move | include/thread_safe_queue.h:38-81 | each atomic step of push or pop keeps the invariant and is a step of the bounded FIFO |
| SpscRing.ProducerMove | include/thread_safe_queue.h:38-59 | a producer's step leaves the consumer's end alone and pushes only the given item |
| SpscRing.ConsumerMove | include/thread_safe_queue.h:62-81 | a consumer's step leaves the producer's end alone, pops the oldest item, and fails only on an empty queue |
| SpscRing.RunRefinesFifo | include/thread_safe_queue.h:38-81 | every interleaving from any good state is a behaviour of the bounded FIFO |
| SpscRing.RefinesBoundedFifo | include/thread_safe_queue.h:28-81 | from construction on: popped is a prefix of pushed, occupancy within capacity, call results those of a FIFO |
| LockFreeQueues.Rejected | include/thread_safe_queue.h:31-34 | the constructor refuses exactly what is not a power of two from 2 up |
| LockFreeQueues.Create | include/thread_safe_queue.h:28-35 | construction succeeds exactly for those capacities and gives an empty queue |
| LockFreeQueues.LockFreeQueue.Push | include/thread_safe_queue.h:38-59 | undisturbed, push is the four steps in a row: appends unless full |
| LockFreeQueues.LockFreeQueue.Pop | include/thread_safe_queue.h:62-81 | undisturbed, pop takes the front, or reports empty and leaves the variable |
| LockFreeQueues.LockFreeQueue.IsEmpty | include/thread_safe_queue.h:83-85 | exact emptiness when undisturbed |
| LoadBalancing.LoadBalancer.constructor | include/load_balancer.h:20-33 | one empty queue per worker, sharing nothing |
| LoadBalancing.LoadBalancer.Dispatch | include/load_balancer.h:36-43 | pushes to the queue the hash selects, and no other queue changes |
| LoadBalancing.LoadBalancer.GetQueue | include/load_balancer.h:46-51 | the worker's queue, null out of range |
| LoadBalancing.Create | include/load_balancer.h:20-33 | refuses no workers and a bad capacity, nothing else |
| FlowKey.SameKeyIff | include/five_tuple.h:33-65 | two packets share a key exactly when they are of one conversation, in either direction |
| FlowKey.CanonicalSorted | include/five_tuple.h:33-65 | the key is the tuple or its reverse, whichever has the smaller address first, or with equal addresses the smaller port |
| FlowKey.CreateBidirectionalTuple | include/five_tuple.h:33-65 | the key is the same from either end |
| MemoryPool.AcquireOk | include/memory_pool.h:37-47 | taking a slot removes it from the free ones and keeps list and bitmap in agreement |
| MemoryPool.ReleaseOk | include/memory_pool.h:50-58 | giving back adds it exactly once |
| MemoryPool.PacketMemoryPool.constructor | include/memory_pool.h:24-34 | all slots free, each with its own buffer |
| MemoryPool.PacketMemoryPool.AcquireSlot | include/memory_pool.h:37-47 | the slot longest free and its buffer, or refusal exactly when none is free |
| MemoryPool.PacketMemoryPool.ReleaseSlot | include/memory_pool.h:50-58 | the slot is free afterwards; a second release changes nothing |
| Engine.MainStep | src/main.cpp:171-244 | every step of the ingestion loop keeps the engine's invariant |
| Engine.WorkerStep | src/main.cpp:51-111 | every step of a worker's loop keeps the invariant and touches only its own ring end, log and returned slot |
| Engine.Run | src/main.cpp:119-259 | every interleaving keeps the invariant |
| EngineTheorems.SlotInOnePlace | src/main.cpp:198-241 | each slot is in exactly one place: pool, producer's hand, one live queue cell, or one worker's hand |
| EngineTheorems.NoDoubleFree | include/memory_pool.h:53-57 | every release is of a slot in use |
| EngineTheorems.WorkersSeeWhatWasSent | src/main.cpp:213-220 | what a worker has handled is a prefix, in order, of what was routed to it, with exactly the first min(length, 2048) payload bytes |
| EngineTheorems.FlowStaysOnWorker | include/load_balancer.h:36-43 | both directions of a flow go to one worker |
| EngineTheorems.FlowInOrder | src/main.cpp:224-235 | a flow's packets are handled in ingestion order, none skipped |
| EngineTheorems.DrainedIff | src/main.cpp:51-97 | cleared after ingestion has finished, a worker's queue is drained at its exit exactly when it was not between a failed pop and the flag test with a packet waiting |
| EngineTheorems.CleanShutdown | src/main.cpp:248-259 | if no worker is caught so, every packet was handled once and all slots are free |
| EngineTheorems.OneStepSuffices | src/main.cpp:248-249 | one step of a worker between the end of ingestion and the clearing keeps it safe |
| EngineTheorems.LostPacket | src/main.cpp:95-96 | for every queue capacity and pool, a run of one worker and one packet in which the packet is never popped |
| FlowTable.TrackKeepsTable | src/connection_tracker.cpp:29-59 | a packet keeps keys and LRU order in agreement, without duplicates, newest first |
| FlowTable.EvictKeepsTable | src/connection_tracker.cpp:84-140 | so does a collection |
| FlowTable.EvictsLongestStaleSuffix | src/connection_tracker.cpp:90-135 | a collection removes exactly the longest all-stale suffix of the order, and keeps the rest as it was |
| FlowTable.EvictionBounds | src/connection_tracker.cpp:103-128 | nothing idle more than 300 s stays, nothing idle 5 s or less goes |
| FlowTable.SurvivesIff | src/connection_tracker.cpp:125-128 | a flow survives exactly when some flow at least as old is within its limit: 5 s when CLOSED, 10 s when SYN_SENT or SYN_RCVD, 300 s otherwise |
| FlowTable.OldestEvictedIff | src/connection_tracker.cpp:103-128 | the oldest flow is removed exactly when its idle whole seconds exceed 5 in CLOSED, 10 in SYN_SENT and SYN_RCVD, 300 in ESTABLISHED, UNKNOWN and FIN_WAIT |
| Time.WholeSecondsMeaning | src/connection_tracker.cpp:101 | idle time counts whole seconds of a thousand million nanoseconds, fractions cut off |
| FlowTable.StateMeaning | src/connection_tracker.cpp:61-78 | ESTABLISHED exactly when the flags split as SYN, waiting, SYN+ACK, waiting, ACK, no teardown; likewise SYN_SENT and SYN_RCVD; UNKNOWN and FIN_WAIT never |
| FlowTable.ClosedIff | src/connection_tracker.cpp:61-78 | CLOSED exactly when some later packet had FIN or RST and was neither the SYN+ACK that answers the SYN nor the acknowledgement of that answer |
| FlowTable.StatesInBits | src/connection_tracker.cpp:10-78 | SYN_SENT, SYN_RCVD and ESTABLISHED exactly characterised by the bits of the flag bytes: 2 is SYN, 16 ACK, 1 and 4 teardown |
| FlowTable.CreatedIff | src/connection_tracker.cpp:18-42 | an untracked flow gets an entry exactly for a packet with the bit of value 2 and without that of value 16 |
| FlowTable.OneFinCloses | src/connection_tracker.cpp:71-78 | flags on which a single FIN, with or without ACK, closes; and on which FIN+ACK establishes |
| FlowTable.ResetDoesNotClose | src/connection_tracker.cpp:62-70 | flags on which a reset establishes, and on which it leaves the flow half open |
| FlowTable.ClosedAbsorbs | src/connection_tracker.cpp:61-78 | once CLOSED, an entry stays CLOSED |
| ConnectionTracking.ConnectionTracker.ProcessTcpPacket | src/connection_tracker.cpp:6-82 | map, list and connection objects move as the table does; returns the flow's own object or null |
| ConnectionTracking.ConnectionTracker.CreateFlow | src/connection_tracker.cpp:21-37 | a new entry at the front with its own object |
| ConnectionTracking.ConnectionTracker.TouchFlow | src/connection_tracker.cpp:44-80 | counters, time, state and splice, with every stored position still pointing at its own key |
| ConnectionTracking.ConnectionTracker.UpdateFlow | src/connection_tracker.cpp:49-78 | the flow's own object changes as one packet says, no other flow's does |
| ConnectionTracking.ConnectionTracker.MoveToFront | src/connection_tracker.cpp:54-59 | the splice moves the flow's key to the front and keeps the order of the others |
| ConnectionTracking.ConnectionTracker.EvictStaleSessions | src/connection_tracker.cpp:84-140 | the collector does what the table's eviction does; its fallback for a missing map entry is unreachable |
| ConnectionTracking.ShouldEvict | src/connection_tracker.cpp:101-123 | evicts exactly when the whole seconds of idleness exceed 5, 10 or 300, by state |
| ConnectionTracking.UpdateConnection | src/connection_tracker.cpp:49-78 | one packet's effect on a connection |
| FlowVerdict.VerdictMeaning | include/fast_path.h:15-37 | malicious exactly when a pattern occurs in the first ten payloads joined; bypassed exactly when an eleventh packet came and none does; the state is that of the bytes scanned |
| FlowVerdict.TenPackets | include/fast_path.h:15-37 | up to ten payloads: malicious exactly when a pattern occurs in them joined, never bypassed; from eleven on: malicious exactly when one occurs in the first ten joined, bypassed exactly otherwise |
| FlowVerdict.NeverBoth | include/fast_path.h:15-37 | a flow is never both malicious and bypassed |
| FlowVerdict.AlertMeaning | src/main.cpp:65-88 | a packet raises an alert exactly when it is inspected and a pattern ends in it, possibly begun in the bytes scanned before |
| FlowVerdict.NextAlert | src/main.cpp:65-88 | the packet after any payloads raises an alert exactly when a pattern ends in it, possibly begun before, and fewer than ten came or the first ten already hold one |
| WorkerNodes.DpiEngine.constructor | src/dpi_engine.cpp:23-34 | the automaton of the signatures in order, without the empty ones, each as often as it was given |
| WorkerNodes.Usable | src/rule_manager.cpp:37-43 | what is loaded holds no empty pattern; `UsableCount` to `UsableAlone` say what it does hold |
| WorkerNodes.UsableCount | src/rule_manager.cpp:37-43 | every non-empty signature is loaded as often as it stands in the list, the empty one never |
| WorkerNodes.UsableOrder | src/rule_manager.cpp:37-43 | two lists one after the other load as their loads one after the other: the order is kept |
| WorkerNodes.UsableAlone | src/rule_manager.cpp:37-43 | a single signature loads as itself unless it is empty |
| WorkerNodes.DpiEngine.InspectPayload | src/dpi_engine.cpp:36-55 | malicious exactly when the scan from the carried state raises an alert; an empty payload changes nothing |
| WorkerNodes.ShouldBypass | include/fast_path.h:15-37 | the fast-path decision on the connection object |
| WorkerNodes.WorkerNode.InspectTracked | src/main.cpp:65-89 | one packet moves one entry's verdict on and leaves every other entry alone; it raises an alert exactly when inspected with a match |
| WorkerNodes.WorkerNode.HandleTcpPacket | src/main.cpp:58-89 | table and alert for a TCP packet; one that belongs to no tracked flow raises an alert exactly when a signature occurs in its own payload |
| WorkerNodes.WorkerNode.HandlePacket | src/main.cpp:54-89 | protocol 6 moves the table as on values and alerts accordingly; other traffic leaves it alone and raises an alert exactly when a signature occurs in its payload |
| WorkerNodes.WorkerNode.CollectGarbage | src/main.cpp:106-110 | the periodic collection |
| WorkerRuns.EveryRunConsistent | src/connection_tracker.cpp:18-135 | in every run: keys and order agree, the order is by last packet, and state, byte and packet counters (modulo 2^64), timestamp and verdict are those of the packets since the entry's creation |
| WorkerRuns.FlowVerdictInRun | src/main.cpp:54-89 | the verdict's meaning for every tracked flow of every run |
| WorkerRuns.AlertInRun | src/main.cpp:58-89 | in every run a TCP packet, tracked or not, raises an alert exactly when a signature ends in it, possibly begun in the flow's packets before it, and fewer than ten came or the first ten already hold one |
| WorkerRuns.TotalBytesMeaning | src/connection_tracker.cpp:50 | the bytes counted are those of the payloads joined |
| WorkerRuns.StatesInRun | src/connection_tracker.cpp:61-78 | what each of the four states means for every tracked flow of every run; the other two never occur |
| WorkerRuns.StaleBehindLongerLimit | src/connection_tracker.cpp:125-128 | a run in which the oldest flow has time left while a younger one is stale and survives the collection |
| EndToEnd.LifeIsAmong | src/main.cpp:52-64 | what a worker feeds its table for a flow is that flow's packets among those it saw |
| EndToEnd.LifeExists | src/main.cpp:52-64 | every run of a worker has such a life, so the statements about lives cover every run |
| EndToEnd.RoutedHasFlow | include/load_balancer.h:36-43 | the worker of a flow is routed all of the flow's packets, in capture order |
| EndToEnd.OpensMeaning | src/connection_tracker.cpp:21 | a packet opens a flow exactly with the flag bit of value 2 set and that of value 16 clear |
| EndToEnd.HistoryIsSuffix | src/connection_tracker.cpp:18-59 | an entry's history is the end of the flow's packets, from the first opening SYN on that came since the entry was last dropped; without such a SYN there is no entry |
| EndToEnd.VerdictOfCapture | src/main.cpp:51-256 | for every interleaving, number of workers and hash, with collections anywhere, the verdict on a flow is that of its captured packets from the first opening one since the entry was last dropped up to the last one handled; all of them once the worker has caught up |
| EndToEnd.CaptureDecides | src/main.cpp:51-256 | two runs over one capture with different interleavings, workers, queues, hashes and collections, both caught up, the flow's entry last dropped after equally many packets: the flow is tracked in both or neither, exactly if a packet since then opens it, with equal verdict, state and counters |
| EndToEnd.NeverDropped | src/connection_tracker.cpp:103-128 | no collection drops a flow's entry if each finds the flow's latest packet at most five whole seconds old |
| EndToEnd.ShortLifeKeeps | src/main.cpp:103-111 | nor does any in a worker's life of at most five whole seconds |
| EndToEnd.CaptureAloneDecides | src/main.cpp:51-256 | under that condition two runs that have caught up say the same of the flow, and track it exactly if some captured packet opens it |
| IngestedFrames.ItemsExist | src/main.cpp:172-196 | every capture is a sequence of frames and of byte strings that are none |
| IngestedFrames.FrameIngested | src/main.cpp:173-225 | a frame becomes one packet with the addresses, both ports and the protocol of its headers, its payload and its flags |
| IngestedFrames.FramesCaptured | src/main.cpp:172-225 | what reaches the engine for a flow is the flow as it stands in the frames, in order; what is no frame adds nothing |
| IngestedFrames.VerdictOfFrames | src/main.cpp:51-256 | from captured bytes to verdict, with collections anywhere: tags, options, padding and bytes that are no frame do not matter, the flow's payloads alone decide; a frame with a fragment counts as a whole packet, as in the ingestion loop |
| Shutdown.OwnStepNearer | src/main.cpp:51-111 | with the flag clear and ingestion over, every step of a worker's own brings it nearer to its exit |
| Shutdown.WorkerExits | src/main.cpp:255-259 | it exits after at most 16 times the queue capacity plus 10 steps of its own, whatever the others do |
| Shutdown.ShutdownCompletes | src/main.cpp:248-259 | if no worker is caught and each gets those steps, all have exited, every packet was handled once and every slot is free |
| Progress.WorkersRest | src/main.cpp:51-94 | after at most 16 times the queue capacity plus 10 turns each, with ingestion paused, every queue is empty and no worker holds a slot |
| Progress.SlotAvailable | src/main.cpp:206-209 | then the pool has a slot for an ingestion thread that waits for one |
| Progress.NextPacketCommits | src/main.cpp:206-235 | and within nine steps of its own the ingestion thread dispatches its packet: neither waiting loop blocks |
| Progress.IngestionCanFinish | src/main.cpp:172-244 | from every state with the flag set some schedule ingests the whole capture |
| Progress.CleanEndReachable | src/main.cpp:172-259 | and from there a pause, the clearing of the flag and the drain end with every packet handled once, all workers exited and all slots free |
| Reassembly.ParseFragment | include/packet_parser.h:15-17 | the Ethernet and IPv4 parsers in a row report whose fragment a frame carries, its offset, bytes and more-fragments bit |
| Reassembly.CarrierRead | src/packet_parser.cpp:37-92 | they recover exactly the written fragment, whatever tags, options and padding its frame has |
| Reassembly.FragmentsReadAsWhole | src/ip_defragmenter.cpp:16-88 | a frame's datagram cut into fragments, each in a frame of its own, comes out of the reassembly exactly when covered, and the transport parser reports of it what the parsers report of the unfragmented frame |
| Fragments.ByteAtMeaning | src/ip_defragmenter.cpp:64-67 | a byte comes from the last accepted fragment covering it |
| Fragments.ByteAtSome | src/ip_defragmenter.cpp:67 | a byte is covered exactly when some accepted fragment covers it |
| Fragments.TotalLengthMeaning | src/ip_defragmenter.cpp:69-72 | the datagram ends where its latest fragment without the more-fragments bit ends, and nowhere if there is none |
| Fragments.DeliverRefuses | src/ip_defragmenter.cpp:24-50 | no bytes, an end beyond 65535, or a 4097th key: refused, and nothing changes |
| Fragments.DeliverMeaning | src/ip_defragmenter.cpp:43-87 | otherwise the fragment joins its key's; something is delivered, and the key removed, exactly when an end is known and every byte below it is filled |
| Fragments.DeliveredBytes | src/ip_defragmenter.cpp:64-81 | each delivered byte is that of the latest fragment covering it |
| Fragments.EvictMeaning | src/ip_defragmenter.cpp:90-108 | a key stays exactly when its first fragment is at most 30 whole seconds old, and stays as it was |
| Fragments.PiecesComplete | src/ip_defragmenter.cpp:69-78 | for pieces of one datagram, complete means covered, and the bytes are the datagram's |
| Fragments.Reassembles | src/ip_defragmenter.cpp:16-88 | in any order, with duplicates, overlaps and other keys between, the first completion comes exactly when the datagram is covered, with the original bytes |
| IpDefragmentation.IsFullyCovered | src/ip_defragmenter.cpp:8-14 | exact coverage of the first length bytes |
| IpDefragmentation.CompleteByBitmap | src/ip_defragmenter.cpp:74-77 | flag, bitmap and trimmed buffer say completion and the assembled bytes of the fragment history |
| IpDefragmentation.IpDefragmenter.ProcessFragment | src/ip_defragmenter.cpp:16-88 | for arbitrary fragments: done exactly when an MF=0 fragment is in and everything below the end of the latest one is covered; buffers and bitmap equal in size, at most 65535; at most 4096 keys |
| IpDefragmentation.IpDefragmenter.StoreFragment | src/ip_defragmenter.cpp:57-87 | the part below the checks |
| IpDefragmentation.FragmentBuffer.Put | src/ip_defragmenter.cpp:59-72 | growing, copying and marking in place give exactly the buffer's next value |
| IpDefragmentation.StoreRepresents | src/ip_defragmenter.cpp:59-72 | that value represents the history with the fragment added: a bit is set exactly where some fragment covers, and the byte is the last one's |
| IpDefragmentation.IpDefragmenter.PutInTable | src/ip_defragmenter.cpp:43-67 | finds or creates the key's buffer and changes no other key's |
| IpDefragmentation.StoreSettles | src/ip_defragmenter.cpp:57-87 | what storing one fragment comes to in the coverage and in the history agree, and are what delivery says |
| IpDefragmentation.IpDefragmenter.TakeIfWhole | src/ip_defragmenter.cpp:74-87 | the datagram is taken out exactly when the last fragment is in and nothing below its end is missing |
| IpDefragmentation.IpDefragmenter.TakeOut | src/ip_defragmenter.cpp:75-81 | the trimmed buffer is handed out and its key removed |
| IpDefragmentation.IpDefragmenter.DropExpired | src/ip_defragmenter.cpp:94-102 | the erase loop leaves exactly the buffers that have not expired |
| IpDefragmentation.IpDefragmenter.EvictStaleFragments | src/ip_defragmenter.cpp:90-108 | removes exactly the keys older than 30 whole seconds |
| DnsNames.ReadableIff | src/dns_parser.cpp:12-71 | a name can be read exactly when one is encoded there that follows at most 16 pointers, and then it is that name |
| DnsNames.EncodedUnique | src/dns_parser.cpp:20-65 | at most one name is encoded at an offset |
| DnsNames.NothingReportedIff | src/dns_parser.cpp:73-107 | exactly when the parser reports nothing |
| DnsNames.ReportedCount | src/dns_parser.cpp:89-106 | the number reported is the length of the longest readable run of questions, short of the announced count exactly for malformed messages |
| DnsNames.PromiseKeptIff | src/dns_parser.cpp:89-97 | a malformed message gives an empty result exactly when its first question is unreadable |
| DnsNames.MalformedYetReported | src/dns_parser.cpp:89-106 | a malformed message, broken off after its first question, that reports that question |
| Samples.DnsMessage | src/dns_parser.cpp:12-107 | the two questions of one message given byte by byte, the second with a pointer |
| DnsParsing.DecodeName | src/dns_parser.cpp:12-71 | terminates on every message; succeeds exactly for readable names, with the labels joined by dots and the offset past the encoding |
| DnsParsing.ExtractQueries | src/dns_parser.cpp:73-107 | the questions up to the first unreadable one |
| DnsEncoding.ParserInvertsWriter | src/dns_parser.cpp:73-107 | reads back 1 to 64 written questions, plain or compressed, with pointers into the middle of earlier names and chains of up to 16 |
| PacketParsing.ParseEthernet | src/packet_parser.cpp:6-35 | succeeds exactly when the type field and every tag fit; the offset is past all tags, within the length |
| PacketParsing.ParseIpv4 | src/packet_parser.cpp:37-92 | fields, fragment metadata, and the datagram's end with padding cut off; offset within the new length |
| PacketParsing.ParseTcp | src/packet_parser.cpp:94-139 | ports, flags and the payload's start, for exactly the headers that fit |
| PacketParsing.ParseUdp | src/packet_parser.cpp:141-164 | ports and the payload's start |
| PacketParsing.ParsePacket | src/main.cpp:173-199 | the chain of parsers |
| PacketParsing.ParserInvertsWriter | src/packet_parser.cpp:6-164 | any frame with tags, options, payload and padding is read back: addresses, ports, flags, fragment fields and exactly the payload |
| PacketParsing.OnlyFramesAccepted | src/packet_parser.cpp:6-164 | whatever is accepted is such a frame, and the report is what it says |
| PacketParsing.AcceptedIff | src/packet_parser.cpp:6-164 | accepted exactly when a frame |
| Samples.TcpFrame | src/packet_parser.cpp:6-139 | the report of one TCP frame given byte by byte, with two tags, options and padding |
| Samples.UdpFrame | src/packet_parser.cpp:6-164 | the report of one UDP frame given byte by byte, whose version and lengths are wrong and are not looked at |
| Frames.Ipv4Fields | src/packet_parser.cpp:51-68 | a written IPv4 header is read back field by field |
| Frames.Ipv4Rewritten | src/packet_parser.cpp:51-79 | a header that fits is the encoding of what is read from it |
| Frames.TcpFields | src/packet_parser.cpp:106-136 | a written TCP header is read back field by field |
| SniExtraction.ExtractSni | src/sni_extractor.cpp:5-40 | the walk to the extensions |
| SniExtraction.SearchExtensions | src/sni_extractor.cpp:42-66 | the first server name extension between the bounds decides |
| SniExtraction.OthersSkipped | src/sni_extractor.cpp:43-64 | extensions of other types are stepped over |
| SniExtraction.ExtractorInvertsWriter | src/sni_extractor.cpp:5-67 | a written ClientHello, with any other extensions in front, gives its host |
| SniExtraction.OnlyHellosReported | src/sni_extractor.cpp:5-67 | a name that is reported stands in a ClientHello as its first server name |
| SniExtraction.ReportedIff | src/sni_extractor.cpp:5-67 | a name is reported exactly for the messages that hold it |
| Samples.HelloNamed | src/sni_extractor.cpp:5-67 | the server name of one ClientHello given byte by byte |

## Left out

- PCAP and rule-file reading, logging, signals, thread creation, CPU pinning: input and output. Packets, signatures and the flag are inputs.
- Drain after an interrupt that arrives while a packet is being dispatched: the drain theorems assume the flag is cleared after ingestion has finished.
- The weak memory model: sequentially consistent steps are assumed.
- `loop_counter` in the worker loop: collections may happen between any two packets, which allows more runs than the code has.
- 32-bit overflow of offsets in the decoders, possible only on inputs near 4 GB: lengths are unbounded integers here.
- PatternMatching.PatternMatcher.AddPattern: only before compilation.
- PatternMatching.PatternMatcher.BuildMachine: takes an automaton of nonempty patterns, as the rule loader provides (src/rule_manager.cpp:37), and one that is not yet compiled, as include/pattern_matcher.h:31 asks; a second compilation would enqueue the root again and again.
- MemoryPool.PacketMemoryPool.AcquireSlot: hands out the buffer, and the engine's step system models copying into it as one step.
- Fragments.Reassembles: supposes that the table has room when the key first turns up and that no collection takes it meanwhile; both are conditions on the calls, stated as `Undisturbed`.
- Wiring the defragmenter into the engine's steps: the ingestion loop does not call it; `Reassembly` states what the parsers and the defragmenter give together.
- LoadBalancing.LoadBalancer.Dispatch: is stated for calls that are not interleaved with others; the interleaved form is the engine's routing over the ring's steps.
- HTTP header logging, `l7_protocol` labels, hex dumps, log sanitising (src/dpi_engine.cpp): they only feed log lines.
- xxHash itself: an arbitrary function.
- `get_active_flow_count`, `get_pending_datagram_count`: getters.
