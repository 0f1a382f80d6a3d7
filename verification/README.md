# Verified model of the Durs core algorithms

A Dafny model of the parts of Durs (the Rust node of the Ğ1 currency) where the reasoning is hardest,
with machine-checked proofs of what they are for.  `dafny verify dfyconfig.toml` checks everything.

| file | what it models |
|---|---|
| `Wrappers.dfy`, `Sequences.dfy`, `Sums.dfy` | optional values; concatenation; finite sums and counting |
| `Wot.dfy` | the Web of Trust, a mutable directed graph, and the invariants of its histories |
| `LinkPaths.dfy` | walks, distances and shortest paths, the vocabulary of the graph algorithms |
| `BreadthFirst.dfy`, `Dependency.dfy`, `PathCounts.dfy`, `Centrality.dfy`, `CentralityLaws.dfy` | betweenness, stress and distance-stress centralities |
| `PathFinder.dfy` | enumeration of all shortest paths |
| `Distance.dfy` | the distance rule |
| `WotFile.dfy`, `WotFileWeight.dfy`, `WotFileRoundTrip.dfy`, `WotFileReader.dfy` | the binary file format, its writer and its reader, and what any bytes mean |
| `Router.dfy`, `RouterDelivery.dfy`, `RouterResponses.dfy`, `RouterLife.dfy`, `RouterBoxes.dfy`, `RouterSystem.dfy` | the message router: what each of its two threads delivers and how long it lives, then both interleaved |
| `Handshake.dfy`, `Conductor.dfy`, `ConductorRuns.dfy`, `TwoPeers.dfy` | the WS2P v1 handshake: the handler of one connection against any peer, the conductor of all connections and requests, then two honest peers over FIFO channels |
| `RulesEngine.dfy`, `RulesMeaning.dfy` | serial and parallel groups of versioned rules, and what running them means in terms of the rules' functions |
| `Heads.dfy` | the cache of network heads |

## How the model is built

Code that changes things in place is imperative here: the graph, the threads of the router, the
connection, the conductor, and the heads cache are classes; the centralities, the path finder, the
distance rule and the file format are methods with loops over arrays, maps and sequences.  Every such method is
proved against a specification function or predicate on values, and the theorems are about those.

* All walks follow the links backwards, from a node to those that certify it; the distance of a node
  is the number of links from it to the root.
* The order in which a `HashSet` or a parallel iterator enumerates is arbitrary: results hold for all orders.
* `f64` accumulators are real numbers.  `usize` and `isize` are 64 bits wide; the casts `as u64` and
  `as isize` of the centralities are modelled with saturation and wrap-around.
* Clocks are a parameter of each step, and runs are chronological.  The delay of the router is a
  comparison with that parameter.
* Signatures are a pair of functions; only the two-peer results use that what one signs the other
  can verify.  Rules of the rules engine are arbitrary functions on arbitrary data.
* A crash (`expect`, `unwrap`, `fatal_error!`) is an outcome of its own: `Crash` when reading a file,
  `ok == false` when writing one, `None` from the handler and the conductor, `running == false` for the broadcasting
  thread.

The graph algorithms need every stored source to be a node of the graph, because the source indexes its tables
with them.  `Wot.WellFormedHistoryIff` says which histories guarantee that.

## Main results

* The centralities of Brandes' algorithm, run in place over queues, stacks and tables, are the textbook ones:
  `Centrality.BetweennessCentralities`, `Centrality.StressCentralities`, `Centrality.DistanceStressCentralities`, with
  conservation (`CentralityLaws.TrafficConserved`) and the exact relation of the bounded variant to the unbounded one.
  The stress variants count the members of one set of paths (`PathCounts.StressCountsPaths`).
* The path finder returns exactly the shortest paths within its bound, each once (`PathFinder.FindPaths`), as many as the
  centralities count (`PathFinder.PathsCounted`).
* The distance rule counts what it says (`Distance.CountersMean`), grows with the number of steps, and saturates; a node
  that all other sentries reach always meets it (`Distance.MeetsTheRule`).
* A graph is recovered from its file if and only if it fits the format and the two paddings agree
  (`WotFileRoundTrip.RoundTripIff`).  Any bytes at all are read record by record (`WotFileReader.FileMeans`), and crash
  the reader exactly when a part is missing or an id is cut short (`WotFileReader.ReadableIff`).
* However the two threads of the router interleave, a module has received everything others sent for one of its
  subscriptions, exactly once and in order, if and only if no late message was handled before it registered, or nothing
  for that subscription was (`RouterSystem.EndToEndIff`; for responses `RouterSystem.ResponsesEndToEndIff`).  Events of
  its own that were handled before it registered are handed to it and later ones are not, so the moment of registration
  can be visible: `RouterSystem.InvisibleInSystemIff` says exactly when it is not.  `RouterBoxes.WholeBox` gives the whole
  box, `RouterLife.RunningIff` exactly when the broadcasting thread lives, and `RouterSystem.SystemStaysAlive` a condition
  on the start of a node under which it does.
* Two honest WS2P peers always get connected: no message is rejected, every run ends, and nothing is left to do exactly
  when both have announced the connection (`TwoPeers.QuietIffConnected`).  Against any peer, the state
  of a connection is exactly what it has accepted (`Handshake.StateIsWhatWasAccepted`), and that decides whether it is
  announced, also when sending fails or time is over (`Conductor.AnnouncedIff`).  The conductor keeps connections apart
  (`ConductorRuns.OwnStory`) and hands on one response to a request (`ConductorRuns.OneResponseEach`).
* A protocol succeeds exactly if its rules do one after the other, each on what the one before it left, and none in a
  parallel group may change the data (`RulesMeaning.ProtocolSucceedsIff`).  Parallel rules can be serialised without
  changing verdict or data (`RulesEngine.ParallelIffSerial`, for failing runs `RulesEngine.FailureSerialised`), and
  neither depends on the schedule (`RulesEngine.RunIndependent`).
* The heads cache does not depend on the order of arrival (`Heads.OrderIndependent`, `Heads.WholeCacheIndependentIff`).

## Where code and documentation disagree

The model follows the code; for each of these it has the exact condition or an example.

* The writer pads the states unless the number of nodes is 7 modulo 8, the reader expects padding unless it is 0
  modulo 8 (`file.rs:222` and `file.rs:113`).  `WotFileRoundTrip.RoundTripIff` is the exact consequence.
* `rem_node` leaves links of the dropped node behind, and answers `None` also when it has just
  dropped the last node, although it is documented to do so only when there was none.
* `add_link` counts a repeated link as issued (`Wot.AddLinkExactIff`).
* `find_paths` with `k_max == 0` answers with the start alone (`PathFinder.ZeroBoundExactIff`).
* `distance_stress_centralities` counts nothing when the bound exceeds the signed range
  (`Centrality.DistanceStressCentralities`, `CentralityLaws.BoundedEqualsUnboundedIff`).
* With `step_max == 0`, a sentry counts itself at the border but not among the successes
  (`Distance.SuccessAtBorderIff`).
* The module whose registration completes the count does not receive the list of endpoints, even if it
  is the network module (`RouterSystem.EndpointsReachAllButTheLast`).
* Broadcasting leaves out the module an event comes from (`router.rs:189-195`), the replay at a registration does not
  (`router.rs:75-85`).  `RouterDelivery.OwnEventBefore` and `RouterDelivery.OwnEventAfter` are one pair of inputs in both
  orders, `RouterDelivery.NoOwnEventIff` and `RouterDelivery.RegistrationInvisibleIff` the exact conditions.
* When an OK is accepted before the ACK, the connection becomes established without an OK being sent or
  the connection being announced (`Conductor.AnnouncedIff`); between two honest peers this cannot happen
  (`TwoPeers.OkNeverBeforeAck`).

## Model

| member | source | states |
|---|---|---|
| `Wot.RustyWebOfTrust.AddLink` | lib/tools/wot/data/rusty.rs:128-142 | adds a link or refuses it, in the order of the source's checks; a repeated link still counts as issued |
| `Wot.RustyWebOfTrust.RemLink` | lib/tools/wot/data/rusty.rs:144-156 | removes a link and gives the certification back; the counter wraps at zero |
| `Wot.RustyWebOfTrust.AddNode` | lib/tools/wot/data/rusty.rs:80-83 | a new enabled node without links, whose id is the last one |
| `Wot.RustyWebOfTrust.RemNode` | lib/tools/wot/data/rusty.rs:85-93 | drops the last node and leaves all links alone; answers the new last id, or nothing when no node is left |
| `Wot.RustyWebOfTrust.SetEnabled` | lib/tools/wot/data/rusty.rs:103-108 | changes the state of a known node and nothing else |
| `Wot.RustyWebOfTrust.SetMaxLink` | lib/tools/wot/data/rusty.rs:76-78 | changes the limit and nothing else |
| `Wot.RustyWebOfTrust.GetLinksSource` | lib/tools/wot/data/rusty.rs:168-172 | the sources of a node's links, each once, in an order nobody controls |
| `Wot.RustyWebOfTrust.HasLink` | lib/tools/wot/data/rusty.rs:158-166 | whether a link is stored, after the two bounds checks |
| `Wot.AddLinkAnswers` | lib/tools/wot/data/rusty.rs:128-142 | which links are accepted and why others are not, in terms of the graph; the number in the answer is the target's in-degree afterwards |
| `Wot.RemLinkAnswers` | lib/tools/wot/data/rusty.rs:144-156 | which links can be removed and why others cannot; the number in the answer is the target's in-degree afterwards |
| `Wot.SetEnabledMoves` | lib/tools/wot/data/rusty.rs:103-126 | a node is moved into or out of the enabled ones, and no other node and no link is touched |
| `Wot.LinksTracked` | lib/tools/wot/data/rusty.rs:128-166 | an accepted link or removal changes what is answered about that link and about no other; a refused one changes nothing |
| `Wot.Select` | lib/tools/wot/data/rusty.rs:110-126 | the ids of the nodes that pass a test, each once: exactly those |
| `Wot.SentriesPartitionEnabled` | lib/tools/wot/data/rusty.rs:192-216 | sentries and non-sentries split the enabled nodes |
| `Wot.SentryIff` | lib/tools/wot/data/rusty.rs:178-203 | with exact counters, sentries are the enabled nodes whose in-degree and out-degree both meet the requirement |
| `Wot.RunKeepsInvariant` | lib/tools/wot/data/rusty.rs:80-156 | over every run that drops no node still certifying somebody: links stay in range, nobody links to itself, issued counters are at least the out-degrees |
| `Wot.NoUnderflow` | lib/tools/wot/data/rusty.rs:144-156 | hence removing a link never takes a counter below zero |
| `Wot.NeverWrapsIff` | lib/tools/wot/data/rusty.rs:144-156 | counters cover the out-degrees if and only if no sequence of removals whatever makes one wrap |
| `Wot.StrictRunKeepsExactCounters` | lib/tools/wot/data/rusty.rs:128-156 | runs without repeated links keep every counter equal to the out-degree |
| `Wot.IssuedEqualsReceived` | lib/tools/wot/data/rusty.rs:128-156 | then all issued counters together equal all in-degrees together |
| `Wot.WellFormedHistoryIff` | lib/tools/wot/data/rusty.rs:80-156 | a history is well formed at every moment if and only if it never drops a node that certifies somebody |
| `Wot.ExactHistoryIff` | lib/tools/wot/data/rusty.rs:80-156 | counters are exact at every moment if and only if no present link is repeated and no dropped node certifies or is certified |
| `Wot.RemNodeInRangeIff` | lib/tools/wot/data/rusty.rs:85-93 | dropping a node keeps links in range if and only if that node certifies nobody who stays |
| `Wot.AddLinkExactIff` | lib/tools/wot/data/rusty.rs:128-142 | an accepted link keeps the counters exact if and only if it was absent |
| `Wot.UntidyHistoryUnderflows` | lib/tools/wot/data/rusty.rs:144-156 | a history after which removing a link makes a counter wrap |
| `Wot.RemLinkUndoesAddLink` | lib/tools/wot/data/rusty.rs:128-156 | removing a link just added restores the whole graph |
| `LinkPaths.ShortestPathsAre` | lib/tools/wot/operations/centrality.rs:53-68 | the shortest paths counted everywhere are the walks that no other walk between their ends undercuts |
| `LinkPaths.WalkMember` | lib/tools/wot/operations/path.rs:51-69 | walks in their two forms, by recursion and as lists of certifying nodes, are the same |
| `LinkPaths.SigmaRecurrence` | lib/tools/wot/operations/centrality.rs:62-66 | shortest paths from w are those of the nodes one link closer that w certifies, added up |
| `LinkPaths.DistAlong` | lib/tools/wot/operations/centrality.rs:57-61 | along a shortest path the distance counts down by one |
| `BreadthFirst.ForwardPhase` | lib/tools/wot/operations/centrality.rs:44-68 | the queue loop ends with every reached node stacked once by non-decreasing distance, true distances, shortest-path counts, and exactly the next nodes on shortest paths |
| `BreadthFirst.VisitSources` | lib/tools/wot/operations/centrality.rs:56-67 | the inner loop over a node's sources, updating the tables in place |
| `Dependency.BetweenCount` | lib/tools/wot/operations/centrality.rs:76-79 | the paths through v are the ways to v times the ways from v |
| `Dependency.AheadRecurrence` | lib/tools/wot/operations/centrality.rs:76-79 | Brandes' recurrence for the weight of all targets beyond a node |
| `Dependency.PartialComplete` | lib/tools/wot/operations/centrality.rs:70-86 | a node has received all it is due once everything one link beyond it is popped |
| `Centrality.ReverseStep` | lib/tools/wot/operations/centrality.rs:73-82 | popping a node hands down exactly its share to the nodes before it, with either formula |
| `Centrality.BackwardPhase` | lib/tools/wot/operations/centrality.rs:69-86 | the reverse pass adds to every node but the root exactly what the root's traffic owes it |
| `Centrality.Accumulate` | lib/tools/wot/operations/centrality.rs:38-87 | over all enabled roots, in any order of links |
| `Centrality.BetweennessCentralities` | lib/tools/wot/operations/centrality.rs:37-89 | the textbook betweenness over ordered enabled pairs, cut off by the final cast |
| `Centrality.StressCentralities` | lib/tools/wot/operations/centrality.rs:90-142 | the size of the set of shortest paths between different enabled nodes with the node strictly inside, unless it exceeds 64 bits |
| `Centrality.DistanceStressCentralities` | lib/tools/wot/operations/centrality.rs:143-197 | for a bound below 2^63, the same counting only paths of at most that many links; for any other, zero |
| `PathCounts.StressCountsPaths` | lib/tools/wot/operations/centrality.rs:90-197 | the double sum over pairs of ends is the size of one set: the shortest paths, short enough and between different enabled nodes, with the node strictly inside |
| `Centrality.AsU64` | lib/tools/wot/operations/centrality.rs:88-88 | the greatest whole number not above, within 64 bits |
| `Centrality.AsIsize` | lib/tools/wot/operations/centrality.rs:162-162 | the signed word that agrees with the unsigned one modulo 2^64 |
| `Centrality.AccumulatedIsBetweenness` | lib/tools/wot/operations/centrality.rs:69-88 | what the passes accumulate is the sum of path fractions |
| `Centrality.AccumulatedIsStress` | lib/tools/wot/operations/centrality.rs:122-141 | what the stress passes accumulate is a whole number, which the cast does not change below its ceiling |
| `CentralityLaws.DeltaAtRoot` | lib/tools/wot/operations/centrality.rs:69-86 | the root itself accumulates the number of enabled nodes that reach it |
| `CentralityLaws.TrafficConserved` | lib/tools/wot/operations/centrality.rs:69-86 | one pass hands out, over all nodes but the root, the sum of distance minus one over the enabled nodes that reach it |
| `CentralityLaws.BetweenVisits` | lib/tools/wot/operations/centrality.rs:69-86 | the shortest paths between two nodes visit inner nodes as often as there are paths times inner places |
| `CentralityLaws.HorizonIsLength` | lib/tools/wot/operations/centrality.rs:162-175 | the step bound lets through exactly the paths of at most that many links |
| `CentralityLaws.WideHorizonIsUnlimited` | lib/tools/wot/operations/centrality.rs:143-197 | a bound no smaller than the graph changes nothing |
| `CentralityLaws.NegativeHorizonIsBlind` | lib/tools/wot/operations/centrality.rs:162-162 | a bound that turns negative in the cast counts nothing |
| `CentralityLaws.BoundedEqualsUnboundedIff` | lib/tools/wot/operations/centrality.rs:143-197 | for bounds from the size on, bounded and unbounded agree if and only if the bound survives the cast or there is nothing to count |
| `CentralityLaws.StressMonotone` | lib/tools/wot/operations/centrality.rs:143-197 | raising the bound never lowers a centrality |
| `PathFinder.Explore` | lib/tools/wot/operations/path.rs:43-69 | the layered exploration finds every node within the bound with its distance and exactly its next hops |
| `PathFinder.ExploreLevel` | lib/tools/wot/operations/path.rs:51-69 | one round turns the nodes at one distance into those at the next, in any order |
| `PathFinder.VisitBorderNode` | lib/tools/wot/operations/path.rs:54-66 | one border node's links |
| `PathFinder.ContinueRound` | lib/tools/wot/operations/path.rs:75-96 | one round of lengthening the paths found so far |
| `PathFinder.RoundLengthens` | lib/tools/wot/operations/path.rs:75-96 | a round turns the exact list of partial paths into the exact list of longer ones |
| `PathFinder.FindPaths` | lib/tools/wot/operations/path.rs:33-99 | for in-range ends and a positive bound: all shortest paths of at most that many links, each once, and nothing else; for other ends nothing |
| `PathFinder.ZeroBoundExactIff` | lib/tools/wot/operations/path.rs:73-98 | with bound 0 the answer is right if and only if both ends are the same |
| `PathFinder.PathsCounted` | lib/tools/wot/operations/path.rs:73-98 | as many paths as the count of the centralities' forward phase |
| `Distance.Expand` | lib/tools/wot/operations/distance.rs:81-104 | the loop ends with exactly the nodes within the bound and exactly those at the bound |
| `Distance.ComputeDistance` | lib/tools/wot/operations/distance.rs:69-123 | the counters of these two sets, or nothing for an unknown node |
| `Distance.CountSentries` | lib/tools/wot/operations/distance.rs:106-122 | the counters, with no decrement below zero |
| `Distance.CountersMean` | lib/tools/wot/operations/distance.rs:81-122 | every counter as the number of nodes it stands for, by walks of at most so many links; a node is outdistanced if and only if its successes are fewer than the share of the sentries |
| `Distance.AllReachIff` | lib/tools/wot/operations/distance.rs:106-116 | all sentries are successes if and only if every sentry but the node itself is within reach |
| `Distance.MeetsTheRule` | lib/tools/wot/operations/distance.rs:106-122 | a node within reach of all other sentries is never outdistanced, whatever the share; when all are asked for, no other node meets the rule |
| `Distance.CountersFit` | lib/tools/wot/operations/distance.rs:106-122 | every counter fits 32 bits |
| `Distance.SuccessBounded` | lib/tools/wot/operations/distance.rs:106-113 | successes never exceed sentries |
| `Distance.SuccessAtBorderIff` | lib/modules/blockchain/blockchain-dal/src/tools.rs:123-123 | the difference taken for the connectivity does not underflow if and only if it is not a sentry measured with no step |
| `Distance.ReachedAtBorderIff` | lib/tools/wot/operations/distance.rs:117-118 | nodes at the border are among those reached if and only if a step is allowed |
| `Distance.DistanceMonotone` | lib/tools/wot/operations/distance.rs:86-122 | more steps never lose a node or a sentry and never make a node outdistanced |
| `Distance.DistanceSaturates` | lib/tools/wot/operations/distance.rs:86-104 | from the size of the graph on, the area is all that reaches the node and the border is empty |
| `WotFile.ToFile` | lib/tools/wot/operations/file.rs:178-248 | the bytes of the file, with the sources of each node in any order; it fails exactly when an id does not fit 24 bits |
| `WotFile.WriteStates` | lib/tools/wot/operations/file.rs:198-226 | the states packed by eight, with the writer's padding |
| `WotFile.FromFile` | lib/tools/wot/operations/file.rs:84-175 | the graph and the blockstamp in any bytes, or a crash |
| `WotFile.LoadStates` | lib/tools/wot/operations/file.rs:128-148 | one node per state, as long as states and nodes last |
| `WotFile.LoadLinks` | lib/tools/wot/operations/file.rs:149-173 | the state machine that turns bytes into links |
| `WotFile.UnpackPack` | lib/tools/wot/operations/file.rs:128-148 | greedy reading of states inverts their packing |
| `WotFile.Be24RoundTrip` | lib/tools/wot/operations/file.rs:163-163 | reading an id inverts writing it |
| `WotFileReader.BigEndian` | lib/tools/wot/operations/file.rs:103-111 | numbers of four bytes are big-endian, and writing inverts reading |
| `WotFileReader.BigEndianId` | lib/tools/wot/operations/file.rs:163-163 | so are ids of three bytes |
| `WotFileReader.UnpackBits` | lib/tools/wot/operations/file.rs:128-148 | the states of a byte are its binary digits, the heaviest first |
| `WotFileReader.LinksRead` | lib/tools/wot/operations/file.rs:149-173 | the byte-driven machine reads links record by record, and ends inside an id exactly if the bytes do |
| `WotFileReader.FileMeans` | lib/tools/wot/operations/file.rs:84-175 | what is read from any bytes: the blockstamp, one node for each digit of the states, and the links of the records |
| `WotFileReader.ReadableIff` | lib/tools/wot/operations/file.rs:84-175 | reading crashes if and only if a part of the file is missing or the last id is cut short |
| `WotFileReader.WritableIff` | lib/tools/wot/operations/file.rs:236-238 | an id can be written if and only if its three bytes give it back |
| `WotFileReader.FileSize` | lib/tools/wot/operations/file.rs:178-248 | the size of the file: nothing but numbers, blockstamp, states, one byte for each node and three for each link |
| `WotFileRoundTrip.RoundTrip` | lib/tools/wot/operations/file.rs:89-241 | for 1 to 6 nodes beyond full groups of eight, or none at all: the reader recovers blockstamp, states and links, and exact counters, for every order of writing |
| `WotFileRoundTrip.EmptyRoundTrip` | lib/tools/wot/operations/file.rs:222-226 | the empty graph is recovered although one byte too many is written |
| `WotFileRoundTrip.MultipleOfEight` | lib/tools/wot/operations/file.rs:113-116 | with a positive multiple of eight nodes the graph is recovered if and only if it has no links |
| `WotFileRoundTrip.SevenNeedsNothing` | lib/tools/wot/operations/file.rs:222-226 | with 7 nodes beyond full groups it is recovered only without links and with the last seven nodes disabled |
| `WotFileRoundTrip.SevenFaithful` | lib/tools/wot/operations/file.rs:222-226 | and then it is |
| `WotFileRoundTrip.RoundTripIff` | lib/tools/wot/operations/file.rs:89-241 | whatever the writer wrote is recovered if and only if in-degrees are at most 255, out-degrees at most the limit, and the paddings agree |
| `WotFileRoundTrip.DecodedFits` | lib/tools/wot/operations/file.rs:149-170 | whatever the bytes, a graph that was read has in-degrees of at most 255 and out-degrees within the limit |
| `WotFileWeight.BytesAddThemselves` | lib/tools/wot/operations/file.rs:149-170 | no bytes make the reader hold more links, by count and id bytes, than the bytes add up to |
| `WotFileWeight.LinkBytesWeigh` | lib/tools/wot/operations/file.rs:228-241 | the bytes written for the links add up to exactly that |
| `Router.BroadcastingThread.Receive` | lib/core/core/src/router.rs:56-232 | one turn of the broadcasting thread: registrations with their fatal checks, replay of early messages, broadcasting, giving up when late |
| `Router.BroadcastingThread.RegisterModule` | lib/core/core/src/router.rs:71-177 | a registration: its replays, the two fatal checks on APIs and endpoints, and the list of endpoints when the count is complete |
| `Router.BroadcastingThread.CheckReservations` | lib/core/core/src/router.rs:112-126 | the reservations are free if and only if no version of an API is reserved already |
| `Router.EndpointsDeclared` | lib/core/core/src/router.rs:127-144 | each endpoint lies in an API part the module itself reserves |
| `Router.BroadcastingThread.SendMsgToSeveralReceivers` | lib/core/core/src/router.rs:260-281 | one copy per listed and known module |
| `Router.BroadcastingThread.StoreMsgInPool` | lib/core/core/src/router.rs:285-309 | early messages are filed under what they are addressed to; the first late one empties the pool |
| `Router.RouterThread.Receive` | lib/core/core/src/router.rs:353-479 | one turn of the main thread: responses delivered, held back or dropped, the rest passed on |
| `Router.RouterThread.StopModules` | lib/core/core/src/router.rs:417-421 | every known module is told to stop |
| `RouterDelivery.SendToSeveralOn` | lib/core/core/src/router.rs:260-281 | a module listed once gets one copy, a module not listed or not known none |
| `RouterDelivery.ReplayedOn` | lib/core/core/src/router.rs:73-111 | a module that registers is handed everything pooled for each of its subscriptions, events of its own included, once and in order |
| `RouterDelivery.PoolOverRun` | lib/core/core/src/router.rs:285-309 | the pool holds everything handled so far for a subscription, until the first late message |
| `RouterDelivery.BroadcastDelivery` | lib/core/core/src/router.rs:63-208 | exactly once and in order: for each subscription a module has received everything handled before it registered, its own events included, unless a late message was among it, and since then everything it did not send itself |
| `RouterDelivery.OthersDelivered` | lib/core/core/src/router.rs:63-208 | of what others sent, the past unless it is lost, and everything since |
| `RouterDelivery.NothingMissedIff` | lib/core/core/src/router.rs:63-208 | nothing others sent is missed if and only if no late message came first or nothing of that kind had been handled |
| `RouterDelivery.OwnEventsReplayed` | lib/core/core/src/router.rs:73-195 | of its own events a module receives exactly those handled before it registered, unless they are lost |
| `RouterDelivery.NoOwnEventIff` | lib/core/core/src/router.rs:73-195 | it receives none of them if and only if a late message, or none of them, was handled before it registered |
| `RouterDelivery.RegistrationInvisibleIff` | lib/core/core/src/router.rs:63-208 | the moment of registration makes no difference if and only if nothing was lost and no event of its own was replayed |
| `RouterDelivery.OwnEventBefore` | lib/core/core/src/router.rs:75-85 | a run in which a module is handed its own event |
| `RouterDelivery.OwnEventAfter` | lib/core/core/src/router.rs:189-195 | the same two inputs in the other order, in which it is not |
| `RouterLife.RunningIff` | lib/core/core/src/router.rs:56-232 | over every run: the broadcasting thread lives if and only if it took no stop, no registration in conflict with what is reserved or without a network module when all are there, and nobody was missing after 20 seconds |
| `RouterLife.StaysAlive` | lib/core/core/src/router.rs:56-232 | if the modules are counted rightly and all register within 20 seconds and in good order, a network module among them, the thread lives until it is stopped |
| `RouterBoxes.WholeBox` | lib/core/core/src/router.rs:56-281 | a module's whole box, in order: what is handed over at its registration, then the messages it asked for and did not send, and between them the list of all endpoints once all have registered |
| `RouterResponses.KnownNotAwaited` | lib/core/core/src/router.rs:367-407 | no module is both known and waited for |
| `RouterResponses.KnownIffRegistered` | lib/core/core/src/router.rs:387-387 | the sender table holds exactly the registered modules |
| `RouterResponses.ResponseDelivery` | lib/core/core/src/router.rs:367-407 | a module's box holds exactly the responses to it, in order, whenever it registered, unless a stray late response came first |
| `RouterResponses.NoResponseLostIff` | lib/core/core/src/router.rs:440-471 | none is lost if and only if no stray response came first or none had been sent |
| `RouterResponses.StopReachesAll` | lib/core/core/src/router.rs:411-423 | a stop puts one stop message in every known module's box |
| `RouterSystem.ThreadsIndependent` | lib/core/core/src/router.rs:327-379 | for every interleaving: each thread is where it would be alone, the link loses, repeats and reorders nothing, and neither thread disturbs what the other delivers |
| `RouterSystem.LinkLossless` | lib/core/core/src/router.rs:353-479 | for every interleaving: the link carries exactly the counts, registrations, events, requests and the stop, in order |
| `RouterSystem.SystemStaysAlive` | lib/core/core/src/router.rs:327-499 | for every interleaving: what keeps the broadcasting thread alive by itself keeps it alive in the router |
| `RouterSystem.DeliveredInSystem` | lib/core/core/src/router.rs:41-499 | for every interleaving: what a module has received for a subscription, its own events included |
| `RouterSystem.EndToEndIff` | lib/core/core/src/router.rs:41-499 | for every interleaving: what a module has received from others for a subscription, followed by what is still on the link, is everything they sent to the router for it, in order, if and only if nothing late or nothing of that kind was taken before it registered |
| `RouterSystem.InvisibleInSystemIff` | lib/core/core/src/router.rs:41-499 | for every interleaving: all it has received is that, its own events among it, if and only if nothing was lost and none of its own was replayed |
| `RouterSystem.ResponsesEndToEndIff` | lib/core/core/src/router.rs:353-499 | for every interleaving: a module has received all responses to it, in order, if and only if no stray response came before it registered or none to it had come |
| `RouterSystem.EndpointsReachAllButTheLast` | lib/core/core/src/router.rs:159-176 | the list of all endpoints goes to every network module known before the last registration, and not to the module that registers last |
| `RouterSystem.ReservationsApart` | lib/core/core/src/router.rs:112-154 | over every run, no version of an API is reserved by two modules |
| `Handshake.ConnectionMetaDatas.ParseAndCheckIncomingMessage` | lib/modules/ws2p-v1-legacy/src/ws_connections/meta_datas.rs:61-161 | the state machine of one connection, including what falls through and what panics |
| `Handshake.Client.OnOpen` | lib/modules/ws2p-v1-legacy/src/ws_connections/handler.rs:100-119 | the conductor gets the websocket before the CONNECT is sent; the socket is closed if it cannot be reached |
| `Handshake.Client.OnMessage` | lib/modules/ws2p-v1-legacy/src/ws_connections/handler.rs:147-168 | one report to the conductor per message, in the order of arrival; the socket is closed if it cannot be reached |
| `Handshake.Client.OnConnectTimeout` | lib/modules/ws2p-v1-legacy/src/ws_connections/handler.rs:171-185 | the end of the negotiation is reported and closes the socket unless the connection is established |
| `Handshake.Client.OnExpireTimeout` | lib/modules/ws2p-v1-legacy/src/ws_connections/handler.rs:186-195 | a silent connection is reported and closed |
| `Handshake.Client.OnClose` | lib/modules/ws2p-v1-legacy/src/ws_connections/handler.rs:213-230 | a closed socket is reported |
| `Handshake.StateIsWhatWasAccepted` | lib/modules/ws2p-v1-legacy/src/ws_connections/meta_datas.rs:67-157 | against any peer: the state is exactly what was accepted; Established if and only if one CONNECT, then one ACK and one OK in either order |
| `Handshake.RankCountsAccepted` | lib/modules/ws2p-v1-legacy/src/ws_connections/meta_datas.rs:67-157 | the rank of the state is the number of accepted messages |
| `Handshake.AcceptedIffStateChanges` | lib/modules/ws2p-v1-legacy/src/ws_connections/meta_datas.rs:67-157 | an accepted message raises the rank by one, any other changes nothing |
| `Handshake.AcceptedIff` | lib/modules/ws2p-v1-legacy/src/ws_connections/meta_datas.rs:67-157 | which messages are accepted: by signature, signer, challenge and state |
| `Handshake.RefusedIff` | lib/modules/ws2p-v1-legacy/src/ws_connections/meta_datas.rs:67-157 | what is reported of a message that is not accepted: when it is invalid, and when its authentication part is ignored |
| `Handshake.AnswersAre` | lib/modules/ws2p-v1-legacy/src/ws_connections/meta_datas.rs:88-140 | what is answered to a message that is accepted, and which challenge is remembered |
| `Handshake.TextsAre` | lib/modules/ws2p-v1-legacy/src/ack_message.rs:33-38 | the signed texts are protocol, kind, currency, key and challenge, joined by colons |
| `Handshake.TextsTellApart` | lib/modules/ws2p-v1-legacy/src/ack_message.rs:33-45 | no signature for one kind, currency, key or challenge can serve for another, as long as no field before the challenge contains a colon |
| `Handshake.PanicsIff` | lib/modules/ws2p-v1-legacy/src/ws_connections/meta_datas.rs:67-133 | when checking a message panics |
| `Conductor.WS2PModule.RecvMessagePretreatment` | lib/modules/ws2p-v1-legacy/src/ws_connections/messages.rs:76-283 | what is answered, which signal is raised, and which entries change: only those of the connection, of the request responded to, and of requests that have waited too long |
| `Conductor.WS2PModule.HandleConnect` | lib/modules/ws2p-v1-legacy/src/ws_connections/messages.rs:113-133 | the ACK is sent, or an error is signalled, or the connection is closed without a websocket |
| `Conductor.WS2PModule.HandleAck` | lib/modules/ws2p-v1-legacy/src/ws_connections/messages.rs:134-151 | an OK is sent only if no OK came before; without a websocket the node gives up |
| `Conductor.WS2PModule.HandlePassed` | lib/modules/ws2p-v1-legacy/src/ws_connections/messages.rs:177-225 | contents are forwarded; a response only if its request awaits one, which it then does no longer |
| `Conductor.WS2PModule.CloseConnection` | lib/modules/ws2p-v1-legacy/src/ws_connections/mod.rs:149-170 | the websocket goes, and the state becomes Close unless the negotiation timed out |
| `Conductor.AnnouncedIff` | lib/modules/ws2p-v1-legacy/src/ws_connections/messages.rs:76-283 | against any peer, with sending that may fail and time-outs and closings at any moment: unless the conductor has given up, the connection is announced if and only if CONNECT, ACK and OK came in this order, answers are among those due and in their order, and all of them as long as nothing interferes; with OK before ACK it is established in silence |
| `Conductor.WS2PModule.SendRequest` | lib/modules/ws2p-v1-legacy/src/ws_connections/requests/sent.rs:25-49 | a request is awaited once it was sent, and only then |
| `ConductorRuns.OwnStory` | lib/modules/ws2p-v1-legacy/src/ws_connections/messages.rs:76-283 | over every run: the state of a connection, whether its websocket is there and what was sent on it follow from its own reports alone |
| `ConductorRuns.SignalIff` | lib/modules/ws2p-v1-legacy/src/ws_connections/messages.rs:76-283 | when each signal is raised, and when the node gives up |
| `ConductorRuns.AwaitingStep` | lib/modules/ws2p-v1-legacy/src/ws_connections/messages.rs:210-225 | exactly the requests responded to and those timed out are awaited no longer |
| `ConductorRuns.AwaitedIff` | lib/modules/ws2p-v1-legacy/src/ws_connections/messages.rs:210-304 | over every run: a request is awaited if and only if it was sent and neither responded to nor timed out since |
| `ConductorRuns.OneResponseEach` | lib/modules/ws2p-v1-legacy/src/ws_connections/messages.rs:210-225 | over every run: a request gets no more responses than times it was sent, and none while it is not awaited |
| `TwoPeers.EveryRunIsScripted` | lib/modules/ws2p-v1-legacy/src/ws_connections/meta_datas.rs:67-157 | two honest peers: every reachable state, channels included, is fixed by how far each side has come |
| `TwoPeers.ScriptedMessageAccepted` | lib/modules/ws2p-v1-legacy/src/ws_connections/meta_datas.rs:67-157 | each message of the script is accepted by the other side |
| `TwoPeers.NothingRejected` | lib/modules/ws2p-v1-legacy/src/ws_connections/meta_datas.rs:67-157 | in every reachable state the next message in flight is one that will be accepted |
| `TwoPeers.OkNeverBeforeAck` | lib/modules/ws2p-v1-legacy/src/ws_connections/meta_datas.rs:136-139 | no reachable state waits for an ACK after an OK, or gives up |
| `TwoPeers.EveryRunEnds` | lib/modules/ws2p-v1-legacy/src/ws_connections/handler.rs:100-168 | at most sixteen actions of any run have an effect |
| `TwoPeers.QuietIffConnected` | lib/modules/ws2p-v1-legacy/src/ws_connections/messages.rs:113-176 | nothing is left to do if and only if both sides are Established and have announced it once |
| `TwoPeers.NotQuietMoves` | lib/modules/ws2p-v1-legacy/src/ws_connections/handler.rs:100-168 | otherwise some action has an effect |
| `RulesEngine.ApplyProtocol` | lib/tools/rules-engine/src/lib.rs:163-194 | data and verdict are those of some run of the groups in order, in any schedule of the parallel ones |
| `RulesEngine.ApplyRulesGroupRef` | lib/tools/rules-engine/src/lib.rs:112-128 | any schedule of a group yields an outcome the group may have |
| `RulesEngine.ApplyRuleRef` | lib/tools/rules-engine/src/lib.rs:130-144 | one rule that may only look |
| `RulesEngine.ApplyRuleMut` | lib/tools/rules-engine/src/lib.rs:146-160 | one rule that may change the data, even when it fails |
| `RulesEngine.NewRule` | lib/tools/rules-engine/src/rule.rs:72-81 | a rule without implementation is refused, and no other; one that is accepted keeps its implementations |
| `RulesEngine.LatestIff` | lib/tools/rules-engine/src/rule.rs:89-91 | the implementation used is the one of the greatest version up to the protocol's, if there is any |
| `RulesEngine.NewerVersionInvisible` | lib/tools/rules-engine/src/rule.rs:83-137 | a newer implementation does not change what older protocols do |
| `RulesEngine.GroupOkIffLeavesOk` | lib/tools/rules-engine/src/lib.rs:112-128 | in any schedule a group succeeds if and only if each of its leaves succeeds on the data it started from, and fails with the error of one of them |
| `RulesEngine.VerdictIndependent` | lib/tools/rules-engine/src/lib.rs:123-126 | the verdict of a group does not depend on the schedule |
| `RulesEngine.RunIndependent` | lib/tools/rules-engine/src/lib.rs:163-194 | the data after a run of the whole protocol, failed or not, and its verdict do not depend on the schedule |
| `RulesEngine.FailureSerialised` | lib/tools/rules-engine/src/lib.rs:163-194 | a protocol whose parallel rules only look can fail with given data if and only if it can once serialised |
| `RulesEngine.LooksIffSeries` | lib/tools/rules-engine/src/rule.rs:83-137 | rules succeed when only looking if and only if they succeed in series and none may change the data; then they do not |
| `RulesEngine.ParallelIffSerial` | lib/tools/rules-engine/src/lib.rs:163-194 | a protocol succeeds if and only if it does with each parallel group made a series of its leaves and has no mutable rule in one; the data are the same |
| `RulesEngine.DataAfterRun` | lib/tools/rules-engine/src/lib.rs:163-194 | after a run, failed or not, the data are those left by the serial rules up to and including the failing one |
| `RulesEngine.LeavesOfParallel` | lib/tools/rules-engine/src/lib.rs:93-97 | the parallel shorthand is one group for each listed rule, in order |
| `RulesMeaning.AppliedMutIff` | lib/tools/rules-engine/src/rule.rs:112-138 | one rule in a serial group: data and verdict are those of the function of the greatest version up to the protocol's, also when it fails |
| `RulesMeaning.AppliedIff` | lib/tools/rules-engine/src/rule.rs:83-111 | one rule that may only look: the verdict of that function, or a refusal if it is one that may change the data |
| `RulesMeaning.MutableIff` | lib/tools/rules-engine/src/rule.rs:112-125 | a rule may change the data if and only if its function for the protocol's version is one that may |
| `RulesMeaning.FirstErrorIff` | lib/tools/rules-engine/src/lib.rs:112-121 | a series that may only look reports the first of its rules that fails |
| `RulesMeaning.SeriesSucceedsIff` | lib/tools/rules-engine/src/lib.rs:169-177 | a series succeeds if and only if each rule does on what the one before it left, and leaves what the last one left |
| `RulesMeaning.SeriesFailsIff` | lib/tools/rules-engine/src/lib.rs:169-177 | a series fails if and only if some rule does after those before it succeeded, and leaves what that rule left |
| `RulesMeaning.ProtocolSucceedsIff` | lib/tools/rules-engine/src/lib.rs:163-194 | a protocol succeeds, in whatever schedule, if and only if all its rules do in series and none in a parallel group may change the data |
| `Heads.HeadsCache.Apply` | lib/tools/network-documents/src/network_head.rs:166-187 | a head is applied if and only if it is the first of its node or strictly better, if and only if the cache changes |
| `Heads.HeadsCache.Receive` | lib/modules/ws2p-v1-legacy/src/ws_connections/messages.rs:187-206 | the loop over received heads: the new cache and the heads that made a difference |
| `Heads.AdmittedOne` | lib/modules/ws2p-v1-legacy/src/ws_connections/messages.rs:189-198 | a head is looked at if and only if it can be parsed, is correctly signed and is not of this node |
| `Heads.AdmittedConcat` | lib/modules/ws2p-v1-legacy/src/ws_connections/messages.rs:189-198 | each head is judged by itself, and their order is kept |
| `Heads.PassedOnIff` | lib/modules/ws2p-v1-legacy/src/ws_connections/messages.rs:188-205 | a head is passed on if and only if it is newer than all that was known of its node when it came |
| `Heads.EntryIsFirstBest` | lib/tools/network-documents/src/network_head.rs:166-187 | the entry of a node is the first of its heads that no other of its heads is better than |
| `Heads.MaxNumberMinStep` | lib/tools/network-documents/src/network_head.rs:166-187 | in numbers: the largest block number, and the smallest step received with it |
| `Heads.OrderIndependent` | lib/tools/network-documents/src/network_head.rs:166-187 | reordering or repeating heads changes neither the nodes in the cache nor their number and step |
| `Heads.WholeCacheIndependentIff` | lib/tools/network-documents/src/network_head.rs:166-187 | the whole cache is independent of the order if and only if no two best heads of a node differ |
| `Heads.ImprovementsSuffice` | lib/modules/ws2p-v1-legacy/src/ws_connections/messages.rs:188-205 | whoever applies only the heads that were passed on ends with the same cache |
| `Heads.OwnEntryUntouched` | lib/modules/ws2p-v1-legacy/src/ws_connections/messages.rs:192-198 | received heads never change the entry of this node itself |
| `Heads.EntriesOnlyImprove` | lib/tools/network-documents/src/network_head.rs:166-187 | no entry disappears or gets worse |

## Left out

- Floating-point rounding: results hold for real numbers, up to the final casts.
- PathFinder.FindPaths: does not cover a bound of `u32::MAX`, for which the source's `k_max + 1` overflows.
- Distance.ComputeDistance: does not cover graphs of more than `u32::MAX` nodes, whose counters the source cuts to 32 bits.
- WotFile.ToFile: does not cover graphs of 2^32 nodes, whose number the source cuts to 32 bits.
- WotFileRoundTrip.RoundTripIff: supposes a blockstamp and a graph of fewer than 2^32 bytes and nodes, and a graph without self-links and links out of range, as every tidy history leaves it.
- WotFile.LoadLinks: counts nodes without bound; the source's 32-bit counter could wrap on a file of more than 2^32 link bytes.
- Conductor.WS2PModule.RecvMessagePretreatment: supposes that the connection has an entry in the table of endpoints, without which most branches of the source panic.
- The three centralities repeat the same two phases; the model has each phase once, with the step bound and the formula as parameters.
- The order of the two loops over sentries and the parallel reduction in the distance rule are sets here.
- Checks that cannot fail: `WrongWotSize` when writing, the sum of section sizes when reading.
- Opening, reading and writing files, and their errors.
- The percentages computed from distances, and the choice of the requirement for sentries.
- The configuration thread of the router, the limit on its running time, and the one-second receive timeouts, which only repeat the loop.
- Sending to a module that has gone away, which stops the node.
- Parsing of WS2P messages: a message is given by its authentication part and by what the rest of the parser makes of it; requests, documents and peer cards are passed on as they are.
- What the conductor does with a signal, and what a request or a response says.
- The clocks of the conductor: which requests have waited too long is a parameter of each step, and the times of last checks are left out.
- Spam counters of the handler, its silent skipping of spam and of messages that are not text, and the scheduling of its time-outs, which may happen at any moment here.
- The opening of a websocket from the server's side: both peers act as the source's client does.
- Heads of version 3, which the source does not support, and everything in a head but issuer, block number and step.
- rayon may evaluate more of a parallel group after an error; rules in it cannot change the data, so only the choice of error matters, and it is arbitrary here.
- Blockchain, forks, databases, WS2P v2, user interfaces, and text formats.
