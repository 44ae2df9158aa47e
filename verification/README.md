# Verified model of the optical-network simulator's core algorithms

This project models, in Dafny, the algorithms of the simulator repository that carry state, search graphs or pack data,
and proves what they are for. It does not model the ns-3 devices. Check it with `dafny verify dfyconfig.toml`.

Code that works step by step in the repository (searches, table updates, parsers' scans, queues, header buffers) is
written as methods and classes; the specifications those methods meet are functions and predicates, and the main results
are lemmas about them.

* **Dependency sorting and cycles** (`Rotation`, `FindCycles`, `DependencyGraph`, `Topsort`, `TopsortLevels`). Pairs are
  a sequence of `(parent, child)`; repeated pairs and self-loops are allowed. `AfterCycle(pairs, x)` says that some
  chain leads from a cycle to `x`; `Residue` is the set of all such elements, and it is exactly what cannot be sorted. A
  caller of `find_cycles` must not change the lists it is given while the search goes on, because they are kept for the
  duplicate test.
* **Routing** (`Topology`, `Routing`, `Forwarding`). A network maps each node to its neighbours and their interfaces.
  `Walk(t, host, w)` is a walk over up links from `host` whose inner nodes are switches; `LeastHops` is the least length
  of such a walk. Delays and transmit times are 64-bit unsigned as in the source, including wrap-around.
* **Path table** (`PathCodes`, `PathTable`): the port sequences between top-of-rack switches, packed in four bytes.
* **Optical switches** (`NodeLists`, `LinkData`, `LinkMatrix`, `OpticalTables`, `MemsSchedule`, `SharedMatrices`,
  `OpticalController`): the node lists, the real fifteen link matrices, the real reconfiguration step, and the timed
  events that darken and relight each switch. A state holds the switches, the pending events, the optical table and the
  two-hop table of each leaf. `Agrees` says that a leaf has an entry for an address through an interface exactly when a
  light switch behind that interface leads to the address's leaf. For up to fifteen switches, `Leads` says that every
  entry goes through the interface of such a switch, and `Keys` which addresses have an entry.
* **Trace filter** (`TraceFilter`, `TraceGrammar`, `TraceBrackets`, `TraceParser`, `TraceShorthand`, `TraceEvaluation`,
  `FlowId`): texts are sequences of tokens (blank, bracket, `&`, `|`, one token per base expression, `Junk` for anything
  else). `Expr` is a derivation of the grammar with its blanks.
* **Piecewise-linear distributions** (`PiecewiseLinear`, `CustomRand`, `FlowBins`): numbers are real.
* **AODV state** (`Ipv4`, `Buffer`, `RequestQueue`, `QueueEffects`, `IdCache`, `AodvPacket`, `Rerr`, `WireLayout`),
  after RFC 3561. Bytes and words are bit-vectors; flag bit k is the bit of weight 2^k. Callbacks are an append-only
  log.
* **Flow generation and launch** (`FlowGen`, `Launcher`): all random draws are inputs; times are integers in
  nanoseconds.

## Where the code does not do what is promised

Each of these is a theorem; where the promise holds on part of the inputs, with the exact condition.

* The optical tables agree with the lit circuits in every reachable state if and only if there are at most four optical
  switches (`MemsSchedule.FourIsTheLimit`); with up to fifteen, one reachable state's tables agree if and only if its
  light switches use different matrices and none of them the matrix of a dark one (`SharedMatrices.AgreesExactlyWhen`,
  given a host behind every leaf), and every entry that exists leads where it should (`MemsSchedule.TablesAgree`). With
  more than four, two light switches i < j use the same matrix exactly when i and j agree modulo 4 and 50 j microseconds
  have passed since the start (`SharedMatrices.SharedExactlyWhen`); darkening one then removes every entry of the other
  (`SharedMatrices.DarkeningTakesOthers`). No light switch ever lacks an entry if and only if there are at most four
  (`SharedMatrices.NoneLostUpToFour`); with more, addresses are missing only at the instants at which a switch with the
  same matrix has gone dark (`SharedMatrices.KeysAreServed`, `SharedMatrices.KeysBetweenInstants`). The two-hop tables
  agree for every number of switches up to fifteen (`MemsSchedule.TwoHopTablesAgree`).
* The leaf number that `CalculateMpOpticalRoute` computes from a node id is the leaf's index for all leaves if and only
  if every host and every optical switch has a smaller id than every leaf (`NodeLists.RecoveredIndexIsRight`). In the
  topology that spine_leaf.py writes they have (`NodeLists.GeneratedLeavesAreLast`).
* The comment that every element left over by `topsort` "has at least one child" (topsort.py:109) is true if and only if
  every element on or after a cycle also leads to a cycle (`Topsort.LeftOverHaveChildren`); it fails for the pairs
  (1, 1), (1, 2) (`Topsort.LeftOverWithoutChild`).
* `getPercentileFromValue` inverts `getValueFromPercentile` on all of [0, 100] if and only if the first size is not
  negative (`CustomRand.InverseIffNonNegative`).
* What `TraceFilter::str` prints is never accepted by `_parse`, because leaves print as offsets
  (`TraceShorthand.StrNeverParses`). With field names as leaves the printed text parses back to the same tree if and
  only if every value fits its field (`TraceShorthand.PrintedParsesBack`).
* `TraceFilter::test` accepts what all trees that the grammar gives the filter's text accept, hence every record when it
  gives none; so a filter printed by `str` and read back accepts everything (`TraceShorthand.AcceptsByGrammar`,
  `TraceShorthand.PrintedAccepts`). trace_reader.cpp guards against this, `test` itself does not.
* A `flow` filter rejects TCP records although `GetFlowInt` gives them the same identifier
  (`TraceShorthand.FlowFilterMissesTcp`).
* `ip_to_node_id` recovers an id if and only if it is below 65536 (`FlowId.NodeIdRoundTrip`).
* The request queue is within its limit in every state of a run if and only if no call of `SetMaxQueueLen` lowers the
  limit below the length of that moment (`RequestQueue.WithinLimitThroughout`). Once it is beyond the limit, accepting a
  packet brings it back if and only if enough packets have expired (`RequestQueue.LimitHolds`); a run in which the queue
  goes on growing instead is `RequestQueue.LoweredLimitIsIgnored`.
* A RERR header survives a round trip if and only if it has at most 255 destinations (`Rerr.RerrRoundTrip`), and its
  `operator==` cannot see the loss (`Rerr.EqualsIsBlind`). `AddUnDestination` never returns `false`, although its
  comment and its callers expect that of a full header: the 256th destination fails an assertion instead
  (`Rerr.RerrHeader.AddUnDestination`). The no-delete flag is bit 0 of its byte, while the message format in section 5.3
  of RFC 3561, drawn in aodv-packet.h:269-287, puts it first, at bit 7; the model follows the code. A reader of the
  drawn layout sees the flag that was set if and only if bit 7 had that value before (`Rerr.DrawnFlagSeen`), and of a
  header that starts with a zero flag byte never sees it set, in any run (`Rerr.DrawnFlagStaysClear`).
* The launcher starts all flows of a file if and only if the file's times never run back (`Launcher.Launch`); two flows
  of a host pair share a port if and only if a multiple of 65536 flows lies between them (`Launcher.PortsOfAPair`).
* `flow_bins.py` prints a negative percentile exactly for bins below the first size, which arise because sizes are cut
  to integers (`FlowBins.PercentileOfBin`).
* The generator never writes the last arrival of a host, even when it is within the run (`FlowGen.FinishedFile`).
* Adjacent top-of-rack switches get no entry in the path table, and a pair more than four links apart stops the program
  (`PathTable.PathTableOf`).
* `is_rotated` on two empty lists raises an `IndexError` (`Rotation.IsRotated`).

## Model

| member | source | states |
|---|---|---|
| Rotation.IsRotated | simulation/bindings/python/rad_util.py:735-775 | answers true exactly for rotations; two empty lists are the one error case |
| Rotation.RotatedTransitive | simulation/bindings/python/rad_util.py:735-775 | being rotations of each other is transitive, so the duplicate test picks one list per class |
| Rotation.RotatedSymmetric | simulation/bindings/python/rad_util.py:735-775 | being rotations of each other is symmetric |
| FindCycles.FindCycles | simulation/bindings/python/topsort.py:343-385 | for every finite graph and every order of its keys: ends, reports only elementary cycles, no two of them rotations of each other, and every elementary cycle up to rotation, although roots already visited are skipped |
| FindCycles.ExploreRoot | simulation/bindings/python/topsort.py:351-385 | after exploring a root, every cycle through the root or through any newly visited node has been reported |
| FindCycles.ExpandPath | simulation/bindings/python/topsort.py:353-385 | each child of the path's end either closes a reported cycle or is pushed as a longer simple path, exactly the pushed children become visited, and the stack loses weight |
| FindCycles.ReportCycle | simulation/bindings/python/topsort.py:367-378 | the cycle is reported afterwards, and added only when no rotation of it was |
| FindCycles.ReachableCycleFound | simulation/bindings/python/topsort.py:351-383 | once all simple paths from a root are expanded, every elementary cycle that a path from the root touches is reported, whichever node is touched first |
| FindCycles.EverySimplePathFinished | simulation/bindings/python/topsort.py:352-383 | the stack discipline expands every simple path from the root |
| FindCycles.PathIntoCycle | simulation/bindings/python/topsort.py:351-383 | a simple path that meets a cycle only at its end continues around the cycle as a simple path |
| FindCycles.IsDuplicate | simulation/bindings/python/topsort.py:371-375 | true exactly when some reported cycle is a rotation of the candidate |
| DependencyGraph.ResidueIsAfterCycle | simulation/bindings/python/topsort.py:108-112 | whatever a parents-first order leaves over, when each left-over element has a left-over parent, is exactly what lies on or after a cycle; nothing is left over exactly for acyclic pairs |
| DependencyGraph.SourcelessAfterCycle | simulation/bindings/python/topsort.py:108-111 | in a finite set where every element has a parent in the set, every element lies after a cycle |
| DependencyGraph.SortedAvoidsCycles | simulation/bindings/python/topsort.py:97-103 | no element placed after all its parents lies after a cycle |
| DependencyGraph.PendingDrop | simulation/bindings/python/topsort.py:100-102 | accounting for one more parent lowers a child's count by its occurrences in the child list, duplicate pairs included |
| Topsort.Topsort | simulation/bindings/python/topsort.py:77-112 | succeeds exactly for acyclic pairs; the answer has each element outside the residue once, after all its parents; on failure the parent counts name exactly the elements that lie on or after a cycle, with their outstanding counts and child lists |
| Topsort.DecrementIsSafe | simulation/bindings/python/topsort.py:100-103 | the decremented key is always present and positive: no missing key and no negative count, duplicates and self-loops included |
| Topsort.FreedChildComesLater | simulation/bindings/python/topsort.py:102-103 | a child whose count drops to 0 has all its parents in the answer and is not in it yet |
| Topsort.LeftOverHaveChildren | simulation/bindings/python/topsort.py:108-111 | every key left over has children in the error's dictionaries if and only if every element on or after a cycle also leads to a cycle |
| Topsort.ResidueHasChildren | simulation/bindings/python/topsort.py:108-111 | the same in terms of the pairs |
| Topsort.LeftOverWithoutChild | simulation/bindings/python/topsort.py:108-111 | with the pairs (1, 1), (1, 2) the element 2 is left over and has no child |
| DependencyGraph.SinklessLeadsToCycle | simulation/bindings/python/topsort.py:108-111 | in a finite set where every element has a child in the set, every element leads to a cycle |
| Topsort.BuildMaps | simulation/bindings/python/topsort.py:77-90 | the dictionaries count each element's pairs and list each parent's children in order |
| Topsort.WithoutParents | simulation/bindings/python/topsort.py:92-93 | exactly the keys with count 0, each once |
| Topsort.SortingEnd | simulation/bindings/python/topsort.py:95-112 | when the growing list is used up, what was released and what still waits split the elements at the cycles |
| TopsortLevels.TopsortLevelsCore | simulation/bindings/python/topsort.py:203-232 | level k has exactly the elements whose longest incoming chain has k edges; an element with arbitrarily long chains is in the residue; the generator ends normally exactly for acyclic pairs |
| TopsortLevels.TopsortLevels | simulation/bindings/python/topsort.py:157-172 | the same from the pairs, and the failing inputs are those of `topsort`; on failure the error carries the outstanding counts and child lists of exactly the residue |
| TopsortLevels.LevelIsLongestChain | simulation/bindings/python/topsort.py:203-212 | the keys with count 0 in round n are the elements with a chain of n edges and none of n + 1 |
| TopsortLevels.LevelsEnd | simulation/bindings/python/topsort.py:205-232 | when a round finds nothing, the waiting elements are exactly those on or after a cycle |
| TopsortLevels.ClearLevel | simulation/bindings/python/topsort.py:217-224 | clearing a level leaves the counts of exactly the elements with longer chains |
| Routing.CalculateRoute | simulation/scratch/rdma-simulator.cc:300-345 | distances are exactly the least hop counts of walks through switches; next hops are exactly the transit neighbours one hop nearer, without repeats; delay, transmit time and bandwidth of each node accrue link by link along one and the same least walk: the link's delay, the floor of eight times the payload times 10^9 over its bits per second (product and sums modulo 2^64), and the smaller bandwidth |
| Routing.WalkIsNoShorter | simulation/scratch/rdma-simulator.cc:315-338 | no walk is shorter than the recorded distance of its end |
| Routing.FinishedDistances | simulation/scratch/rdma-simulator.cc:315-345 | at the end of the search a node is recorded with k exactly when its least walk has k links, and its metrics are those of such a walk |
| Routing.FinishedNextHops | simulation/scratch/rdma-simulator.cc:333-336 | at the end the list of each node holds exactly its nearer transit neighbours, once each |
| Routing.VisitNeighbour | simulation/scratch/rdma-simulator.cc:318-337 | one neighbour keeps the invariant of the search: up links only, first visit sets the metrics and enqueues switches only |
| Routing.ExtendMetric | simulation/scratch/rdma-simulator.cc:326-328 | adding one link to a walk adds its delay and floored transmit time modulo 2^64 and takes the smaller bandwidth |
| Routing.ExtendAdds | simulation/scratch/rdma-simulator.cc:326-328 | what one link adds, with the transmit time given as the quotient of the payload's bits and the rate |
| Routing.MetricAccrues | simulation/scratch/rdma-simulator.cc:326-328 | the metrics of a walk's end come from those of each node before it, link by link |
| Routing.NeighbourMetrics | simulation/scratch/rdma-simulator.cc:326-328 | a neighbour of the host has the link's delay and bandwidth and the whole nanoseconds its bits take, when these do not overflow 64 bits |
| Forwarding.AnyChoiceDelivers | simulation/scratch/rdma-simulator.cc:333-336 | whatever next hop is chosen at each node, the packet passes each node at most once, only through switches, is never stuck, and reaches the host after exactly the recorded number of hops |
| Forwarding.ForwardingDescends | simulation/scratch/rdma-simulator.cc:333-336 | each hop is one link nearer to the host |
| Forwarding.NextHopExists | simulation/scratch/rdma-simulator.cc:324-336 | every reached node other than the host has a next hop |
| Forwarding.ForwardingIsAWalk | simulation/scratch/rdma-simulator.cc:300-345 | a delivered packet's way, read backwards, is a least walk over up links |
| Forwarding.AnyInterfaceDelivers | simulation/scratch/rdma-simulator.cc:356-380 | a packet that leaves each node through any interface its table lists for the host passes each node at most once, finds a neighbour behind every listed interface until it is at the host, and is there after exactly the recorded number of hops, when interface numbers tell a node's links apart |
| Forwarding.SentIsForwarded | simulation/scratch/rdma-simulator.cc:356-380 | the ways over listed interfaces are exactly the ways over next hops |
| Forwarding.RouteTables.CalculateRoutes | simulation/scratch/rdma-simulator.cc:347-354 | exactly the hosts get a table |
| Forwarding.RouteTables.AddRoute | simulation/scratch/rdma-simulator.cc:333-344 | adding a host's routes keeps the routes of all other hosts |
| Forwarding.RouteTables.SetRoutingEntries | simulation/scratch/rdma-simulator.cc:356-380 | each node's entries for a destination are the interfaces of its next hops, in their order, hence those of the search from that host |
| PathCodes.ArrivesIsShortest | simulation/scratch/rdma-simulator.cc:1174-1276 | forwarding towards a single-homed host that has arrived at its switch is a shortest path between the two switches |
| PathCodes.ShortestArrives | simulation/scratch/rdma-simulator.cc:1174-1276 | every shortest path between the two switches is such a forwarding |
| PathCodes.LeastAlongWalk | simulation/scratch/rdma-simulator.cc:300-345 | on a least walk every node is at its position's distance |
| PathCodes.DecodeEncode | simulation/scratch/rdma-simulator.cc:1195-1208 | one to four non-zero port bytes are read back from their number |
| PathCodes.PathIdDecodes | simulation/scratch/rdma-simulator.cc:1206-1265 | a path id decodes to its port sequence and, from the same switch, to no other path or destination |
| PathCodes.PathIdBytes | simulation/scratch/rdma-simulator.cc:1206-1265 | the id of a path of up to four links is its interface numbers times 1, 256, 65536 and 16777216 |
| PathCodes.PortsLeadOneWay | simulation/scratch/rdma-simulator.cc:1195-1265 | a port sequence leads along one path only |
| PathTable.PathTableOf | simulation/scratch/rdma-simulator.cc:1184-1273 | for each other top-of-rack switch two to four links away: exactly the ids of all equal-cost paths and twice the number of links as base round trip; no entry for adjacent ones; stops exactly when one is more than four links away |
| PathTable.AddHost | simulation/scratch/rdma-simulator.cc:1184-1272 | a second host behind a switch finds the same paths and changes nothing, and other switches' entries stay |
| PathTable.FirstHops | simulation/scratch/rdma-simulator.cc:1196-1272 | the outer loop collects exactly the paths through the first next hops |
| PathTable.SecondHops | simulation/scratch/rdma-simulator.cc:1219-1271 | the middle loop, below a chosen first hop |
| PathTable.ThirdHops | simulation/scratch/rdma-simulator.cc:1242-1270 | the inner loop, below two chosen hops, with the failing assertion |
| PathTable.WrittenBytes | simulation/scratch/rdma-simulator.cc:1206-1208 | writing all ports of a path gives its id: no byte is stale from another path |
| PathTable.OnlyTorIsNext | simulation/scratch/rdma-simulator.cc:1200-1245 | the loops' test, that the only next hop is the destination switch, holds exactly two links from the host |
| PathTable.MiddleStep | simulation/scratch/rdma-simulator.cc:1219-1270 | every continuation of the chosen nodes goes on over exactly one of the next hops |
| PathTable.SameDistance | simulation/scratch/rdma-simulator.cc:1184-1191 | the hosts of one switch are equally far from every other switch |
| NodeLists.BuildNodeLists | simulation/scratch/rdma-simulator.cc:851-890 | each list has exactly the ids of its kind in increasing order; the first electric switches, as many as the file announces optical ones, are the spines and the rest the leaves |
| NodeLists.ListedByType | simulation/scratch/rdma-simulator.cc:867-890 | a node is in the list its type says, 0 host and 2 optical, and a leaf has exactly the announced number of electric switches before it |
| NodeLists.RecoveredIndexIsRight | simulation/scratch/rdma-simulator.cc:393 | the number recovered from a leaf's id is its index for every leaf if and only if every host and optical switch has a smaller id than every leaf (the spines always have) |
| NodeLists.RecoveredIndexIs | simulation/scratch/rdma-simulator.cc:393 | the number is the index minus the number of hosts and optical switches with larger ids |
| NodeLists.IdsBelow | simulation/scratch/rdma-simulator.cc:867-890 | the ids below any id are split among the lists |
| NodeLists.GeneratedLeavesAreLast | topology_gen/spine_leaf.py:5-25 | for every number of optical spines the generated topology has its leaves last, four to each optical spine |
| LinkMatrix.PeerIsInvolution | simulation/src/point-to-point/model/mems-link-matrix.h:1-288 | each of the fifteen matrices pairs the sixteen leaves off, none with itself |
| LinkMatrix.PeersDisjoint | simulation/src/point-to-point/model/mems-link-matrix.h:1-288 | two different matrices send no leaf to the same leaf |
| LinkMatrix.ReadLinkTable | simulation/src/point-to-point/model/mems-node.cc:74-80 | the scan of a matrix leaves in each row the last column set |
| LinkMatrix.ReadingGivesLinkTable | simulation/src/point-to-point/model/mems-node.cc:72-81 | for the fifteen matrices of the header that is the peer of each leaf, whatever the table held before |
| LinkMatrix.MatrixRow | simulation/src/point-to-point/model/mems-link-matrix.h:1-288 | the k-th matrix pushed by the constructor has, in each of the header's rows, its only 1 in the column `Peer` names |
| LinkMatrix.FirstLeafsPeer | simulation/src/point-to-point/model/mems-link-matrix.h:1-288 | matrix k joins the first leaf with leaf k + 1, in both directions |
| OpticalTables.DarkeningAgrees | simulation/scratch/rdma-simulator.cc:456-464 | clearing the routes of a switch that goes dark keeps table and circuits in agreement while light switches use different matrices |
| OpticalTables.LighteningAgrees | simulation/scratch/rdma-simulator.cc:469-476 | adding the routes of a relit switch keeps the agreement |
| OpticalTables.OneSwitchPerHost | simulation/scratch/rdma-simulator.cc:427-444 | with different matrices a leaf reaches a host through at most one light switch, so single-valued entries suffice |
| OpticalTables.MpTableAgrees | simulation/scratch/rdma-simulator.cc:408-423 | the rebuilt two-hop table maps an address to the last light switch that starts a two-hop route to it over another light switch, and holds no other address |
| OpticalTables.SecondHopIsThere | simulation/scratch/rdma-simulator.cc:388-406 | for every two-hop entry the middle leaf has the one-hop entry that completes the route, and the address is not the leaf's own |
| MemsSchedule.OnePendingEvent | simulation/scratch/rdma-simulator.cc:467-494 | in every reachable state each switch has exactly one pending event and no other events exist |
| MemsSchedule.DarkTogether | simulation/scratch/rdma-simulator.cc:456-497 | two switches dark at the same instant agree modulo 4 |
| MemsSchedule.AtMostOneDark | simulation/scratch/rdma-simulator.cc:456-497 | with at most four switches at most one is ever dark |
| MemsSchedule.FourSwitchesDisjoint | simulation/scratch/rdma-simulator.cc:456-497 | with at most four switches the light ones never use the same matrix |
| MemsSchedule.EventKeepsAgreement | simulation/scratch/rdma-simulator.cc:456-481 | one event keeps the tables in agreement when the matrices in use differ before and after it |
| MemsSchedule.TablesAgree | simulation/scratch/rdma-simulator.cc:388-497 | with any number of switches up to fifteen, in every state of every interleaving: each entry of the optical table goes through the interface of a light switch that leads to the address's leaf, and in multi-path mode the two-hop table equals the two-hop routes; with at most four the optical table equals the lit circuits |
| MemsSchedule.EntriesFollowLinks | simulation/scratch/rdma-simulator.cc:388-497 | the same in the fabric's own terms: an entry for a host through an interface means a light switch behind just that interface of the leaf whose link table leads to the leaf that has the host; with at most four switches every such link has its entry |
| MemsSchedule.CircuitAtTime | simulation/scratch/rdma-simulator.cc:456-497 | at any time of any run switch m is in a period r that began 50 m + 200 r microseconds after the start, light for 180 and dark for 20 of them, and in it joins the first leaf with leaf (m + 4 r) mod 15 + 1 |
| MemsSchedule.EventKeepsLeads | simulation/scratch/rdma-simulator.cc:456-481 | no event, whatever matrices the light switches use, leaves an entry whose interface leads elsewhere |
| MemsSchedule.TwoHopTablesAgree | simulation/scratch/rdma-simulator.cc:388-497 | in multi-path mode, with any number of switches up to fifteen, the two-hop table equals the two-hop routes in every state of every interleaving |
| MemsSchedule.CollisionIsReached | simulation/scratch/rdma-simulator.cc:456-497 | with five to fifteen switches two light ones come to use the same matrix |
| MemsSchedule.FourIsTheLimit | simulation/scratch/rdma-simulator.cc:388-497 | the one-hop agreement holds in every reachable state if and only if there are at most four switches |
| SharedMatrices.SharedExactlyWhen | simulation/scratch/rdma-simulator.cc:456-497 | in every reachable state of up to fifteen switches, two light switches i < j use the same matrix if and only if i and j agree modulo 4 and the clock has reached the start plus 50 j microseconds |
| SharedMatrices.KeysAreServed | simulation/scratch/rdma-simulator.cc:427-497 | in every reachable state of up to fifteen switches, a leaf has an entry for an address if and only if a light switch leads to it and no dark switch still holds that switch's matrix, and the entry's interface is that of a light switch leading to it |
| SharedMatrices.KeysBetweenInstants | simulation/scratch/rdma-simulator.cc:427-497 | when no event is due at this instant, the addresses are exactly those behind light switches, each through the interface of one of them |
| SharedMatrices.AgreesExactlyWhen | simulation/scratch/rdma-simulator.cc:427-497 | in any reachable state of up to fifteen switches with a host behind every leaf, the table agrees with the lit circuits if and only if the light switches use different matrices and no dark switch holds one of these |
| SharedMatrices.EventKeepsKeys | simulation/scratch/rdma-simulator.cc:456-481 | one event, in any order of simultaneous events, keeps this |
| SharedMatrices.DarkeningTakesOthers | simulation/scratch/rdma-simulator.cc:458-464 | darkening a switch leaves another light switch with its matrix without any entry for the hosts behind it |
| SharedMatrices.EntryIsLost | simulation/scratch/rdma-simulator.cc:456-497 | with five to fifteen switches a state is reached in which a light switch lacks an entry |
| SharedMatrices.NoneLostUpToFour | simulation/scratch/rdma-simulator.cc:456-497 | no entry of a light switch is missing in any reachable state if and only if there are at most four switches |
| MemsSchedule.TimedStep | simulation/scratch/rdma-simulator.cc:456-497 | each event keeps every switch at its place in its own 200-microsecond period |
| MemsSchedule.InitialStateAgrees | simulation/scratch/rdma-simulator.cc:483-497 | the tables agree once initialised, all switches light |
| OpticalController.Controller.ConfigMems | simulation/scratch/rdma-simulator.cc:456-481 | one call is one step of the schedule: flags, link index, both tables and the next event |
| OpticalController.Controller.InitMemsConfig | simulation/scratch/rdma-simulator.cc:483-497 | reaches an initial state of the schedule, events 50 microseconds apart from 180 |
| OpticalController.NewSwitch | simulation/src/point-to-point/model/mems-node.cc:28-55 | a new switch is light, under the matrix of its own number, with that matrix read into its table |
| OpticalController.Controller.CalculateOpticalRoute | simulation/scratch/rdma-simulator.cc:436-443 | adds the hosts of leaf b to leaf a's table through the switch's interface and changes no other leaf |
| OpticalController.Controller.ClearOpticalRoute | simulation/scratch/rdma-simulator.cc:446-454 | removes exactly the hosts of leaf b from leaf a's table |
| OpticalController.Controller.CalculateMpOpticalRoute | simulation/scratch/rdma-simulator.cc:408-423 | afterwards the two-hop table equals the two-hop routes over pairs of distinct light switches, whatever it held before |
| OpticalController.Controller.CalculateMpOpticalRouteFrom | simulation/scratch/rdma-simulator.cc:388-406 | one first hop: every host two hops away gets the first interface, other leaves are untouched; the leaf number is computed from the node id, and is right by `NodeLists.RecoveredIndexIsRight` |
| OpticalController.Controller.Reconfiguration | simulation/src/point-to-point/model/mems-node.cc:72-81 | advances the link index by 4 modulo 15 and reads its matrix |
| OpticalController.Controller.GoDark | simulation/scratch/rdma-simulator.cc:458-467 | the switch is dark and exactly its routes are gone |
| OpticalController.Controller.GoLight | simulation/scratch/rdma-simulator.cc:469-479 | the switch is light under its new matrix and exactly its new routes are there |
| TraceGrammar.ParsesExactlyTheGrammar | analysis/trace_filter.hpp:240-346 | a text parses to a tree if and only if the grammar (factor, or factor op expression; a factor is an atom or a bracketed expression) derives it with that right-nested tree, both connectives at one precedence |
| TraceGrammar.ParseIsMeaning | analysis/trace_filter.hpp:240-319 | every derivation's text parses to its tree, with blanks and redundant brackets anywhere; an atom without meaning voids the whole |
| TraceGrammar.ParsedIsDerived | analysis/trace_filter.hpp:240-346 | whatever parses has a derivation with the parsed tree |
| TraceGrammar.CutThrough | analysis/trace_filter.hpp:283-296 | the depth counter passes over a whole expression and stops at the bracket that closes it |
| TraceParser.ParseText | analysis/trace_filter.hpp:240-319 | the recursive parser ends for every text, although shorthands expand to longer texts, and computes the parse function |
| TraceParser.StripOuterBracket | analysis/trace_filter.hpp:320-346 | strips outer brackets as long as the closing one ends the text |
| TraceParser.MatchBracket | analysis/trace_filter.hpp:285-291 | the scan finds the matching bracket or the end of the text |
| TraceParser.ParseAtom | analysis/trace_filter.hpp:189-235 | a known field becomes a leaf with its value cut to the field's width, a shorthand the tree of its expansion, anything else fails |
| TraceBrackets.StripExactly | analysis/trace_filter.hpp:320-346 | stripping gives the one text that is inside some number of bracket pairs belonging together, blanks around each, and is itself not in such a pair |
| TraceBrackets.WrappedIsEnclosed | analysis/trace_filter.hpp:320-342 | the scan finds an outer pair exactly when the first bracket is closed by the last one |
| TraceBrackets.CutIsFirst | analysis/trace_filter.hpp:326-332 | the scan stops at the first closing bracket with nothing open before it |
| TraceFilter.ExpansionHasNoShorthands | analysis/trace_filter.hpp:347-380 | an expansion contains no shorthand, so expanding ends |
| TraceShorthand.PrintedParsesBack | analysis/trace_filter.hpp:385-391 | text in the printed shape with field names parses to the tree with values cut to their fields, hence to the same tree if and only if every value fits |
| TraceShorthand.ParsePrintParse | analysis/trace_filter.hpp:385-391 | parsing, printing by name and parsing again gives the same tree for every accepted text |
| TraceShorthand.StrNeverParses | analysis/trace_filter.hpp:385-391 | the text that `str` prints is never accepted |
| TraceShorthand.AcceptsByGrammar | analysis/trace_filter.hpp:172-182 | a record is accepted if and only if every tree the grammar gives the text accepts it: a text outside the grammar accepts every record |
| TraceShorthand.PrintedAccepts | analysis/trace_filter.hpp:172-182 | a filter printed by `str` and read back accepts every record; printed with field names it accepts what the filter with values cut to their fields does |
| TraceEvaluation.AtomAccepts | analysis/trace_filter.hpp:52-135 | for each of the twenty fields and six operators: the filter accepts exactly the records whose field, named in the record's own terms, compares so with the value cut to the field's width |
| TraceEvaluation.ConnectivesAccept | analysis/trace_filter.hpp:135-148 | `(l)&(r)` accepts exactly what both accept and `(l)` or `(r)` what either accepts |
| TraceEvaluation.QueueAccepts | analysis/trace_filter.hpp:367-380 | `queue` accepts exactly the records of that node, interface and queue index |
| TraceEvaluation.BrokenShorthandAcceptsAll | analysis/trace_filter.hpp:347-380 | a shorthand with another operator or without its numbers, and an unknown name, parse to nothing and accept every record |
| TraceShorthand.FlowShorthands | analysis/trace_filter.hpp:347-366 | `flow` accepts exactly the records of the flow (UDP, ACK, NACK and queue-pair records), `rflow` those with the ends swapped, `biflow` what either accepts |
| TraceShorthand.AcceptedShareFlowInt | analysis/utils.hpp:25-67 | every record a `flow` filter accepts has the flow's `GetFlowInt`, reverse records its reverse, and the standard form joins both directions |
| TraceShorthand.FlowFilterMissesTcp | analysis/utils.hpp:32-36 | a TCP record of the flow has the same identifier but is not accepted |
| FlowId.NodeIdRoundTrip | simulation/scratch/rdma-simulator.cc:181-187 | `ip_to_node_id` gives the id modulo 65536, hence the id exactly below 65536 |
| FlowId.FlowIntInjective | analysis/utils.hpp:25-31 | for addresses of ids below 65536 the flow identifier determines both ids and both ports |
| FlowId.AddressOctets | simulation/scratch/rdma-simulator.cc:181-183 | the host with id i below 65536 has the address 11.(i / 256).(i mod 256).1 |
| FlowId.FlowIntFields | analysis/utils.hpp:25-31 | the flow identifier holds source id, destination id, source port and destination port in 16 bits each |
| FlowId.RecordFlowInts | analysis/utils.hpp:32-67 | the flow identifiers of a record between two hosts: with the ports exactly for TCP, UDP, ACK, NACK and QpAv; the reverse one exchanges hosts and ports; the standard one reverses exactly ACK and NACK |
| CustomRand.TestCdf | traffic_gen/custom_rand.py:5-13 | accepts exactly the lists from percentile 0 to 100 that rise strictly in both coordinates; an empty list is the error case |
| CustomRand.Distribution.SetCdf | traffic_gen/custom_rand.py:14-18 | replaces the distribution exactly when it is accepted |
| CustomRand.Distribution.GetValueFromPercentile | traffic_gen/custom_rand.py:39-44 | the search evaluates the inverse curve; above 100 it returns nothing |
| CustomRand.Distribution.GetPercentileFromValue | traffic_gen/custom_rand.py:31-38 | the search evaluates the curve; outside its range it returns -1 |
| CustomRand.Distribution.GetIntegralY | traffic_gen/custom_rand.py:45-56 | the sum is the area below the curve up to the percentile, across any number of knots |
| CustomRand.Distribution.GetAvg | traffic_gen/custom_rand.py:19-27 | the sum is the whole area |
| CustomRand.ValueRises | traffic_gen/custom_rand.py:39-44 | the value rises strictly with the percentile |
| CustomRand.PercentileRises | traffic_gen/custom_rand.py:31-38 | the percentile rises strictly with the value |
| CustomRand.PercentileOnTheChord | traffic_gen/custom_rand.py:31-38 | between two neighbours of the list the percentile lies on the line through them |
| CustomRand.ValueOnTheChord | traffic_gen/custom_rand.py:39-44 | between two neighbours of the list the value lies on the line through them |
| CustomRand.ValueOfPercentile | traffic_gen/custom_rand.py:31-44 | the value of a value's percentile is the value, for every value from the first to the last size |
| CustomRand.PercentileOfValue | traffic_gen/custom_rand.py:31-44 | the percentile of a percentile's value is the percentile where that value is not negative, and -1 where it is negative |
| CustomRand.InverseIffNonNegative | traffic_gen/custom_rand.py:31-44 | the two functions are inverse on all percentiles if and only if the first size is not negative |
| CustomRand.IntegralBounds | traffic_gen/custom_rand.py:45-56 | the integral between two percentiles lies between their values times a hundredth of their distance |
| CustomRand.WholeIntegralIsAverage | traffic_gen/custom_rand.py:19-56 | the integral up to 100 is the average |
| PiecewiseLinear.EvalInverts | traffic_gen/custom_rand.py:31-44 | a rising piecewise-linear curve and its mirror image undo each other, segment search included |
| PiecewiseLinear.AreaGrowth | traffic_gen/custom_rand.py:45-56 | the area between two heights is bounded by the smallest and largest width, across any number of knots |
| FlowBins.BuildBins | traffic_gen/flow_bins.py:28-50 | for every accepted distribution with non-negative sizes: the loop ends by the measure (x, ceiling of p) and never takes the error exit; it visits the percentiles from 100 down, each one below the last but not below 1, or that of the half of a size above 1000 when the size one below is under that half, until percentile 1 or a size that is not positive; the bins are exactly the positive sizes at these percentiles, strictly falling, with no gap of more than one percentile |
| FlowBins.BinsAreDetermined | traffic_gen/flow_bins.py:28-50 | the percentiles visited and the set of bins are determined by the distribution |
| FlowBins.BinsAboveFirstPercentile | traffic_gen/flow_bins.py:34-40 | no bin is below the size at percentile 1 |
| FlowBins.PrintedBins | traffic_gen/flow_bins.py:50-52 | the rows are those bins in rising order with their percentiles; a percentile is printed as negative exactly for a bin below the first size |
| FlowBins.PercentileOfBin | traffic_gen/flow_bins.py:51-52 | a bin's percentile lies in [0, 100] and has exactly this size if the bin is not below the first size, and is negative otherwise |
| FlowBins.NextSize | traffic_gen/flow_bins.py:40-43 | one step keeps the size equal to the integer value at the percentile, also after the jump to half, and goes no further down than one percentile |
| FlowBins.StepDown | traffic_gen/flow_bins.py:34-40 | a lower percentile gives a size that is not larger and not negative |
| FlowBins.JumpToHalf | traffic_gen/flow_bins.py:41-43 | half of a size above 1000 is inside the distribution and its percentile leads back to it |
| RequestQueue.EveryPacketIsAccountedFor | simulation/src/aodv/model/aodv-rqueue.cc:41-146 | in every run, whatever the settings and times: each accepted packet waits, was handed out or was dropped with its error callback, exactly once; no packet waits twice for one destination; it is dropped as outdated only after its expiry and leaves otherwise only until then |
| RequestQueue.FirstInFirstOut | simulation/src/aodv/model/aodv-rqueue.cc:41-146 | with fixed settings, a positive limit and a clock that never runs back: the length stays within the limit, entries stay sorted by expiry, and the packets of each destination leave in the order of their acceptance |
| RequestQueue.PurgeRemovesPrefix | simulation/src/aodv/model/aodv-rqueue.cc:124-138 | in a queue sorted by expiry the outdated entries are a prefix |
| RequestQueue.LimitHolds | simulation/src/aodv/model/aodv-rqueue.cc:48-68 | an accepted packet leaves the queue within its limit if and only if the unexpired entries were within it |
| RequestQueue.WithinLimitThroughout | simulation/src/aodv/model/aodv-rqueue.h:115-116 | the length is within the limit in every state of a run if and only if each `SetMaxQueueLen` comes when the queue is within the new limit |
| RequestQueue.StepKeepsLimit | simulation/src/aodv/model/aodv-rqueue.cc:41-146 | from a state within the limit only a call that lowers it below the length leaves it |
| RequestQueue.LoweredLimitIsIgnored | simulation/src/aodv/model/aodv-rqueue.h:115-116 | a run in which a limit lowered to 1 is followed by a queue of 3 |
| RequestQueue.FoundButNotServed | simulation/src/aodv/model/aodv-rqueue.cc:87-113 | `Find` does not purge: a packet it reports is not handed out exactly when all packets for the destination have expired |
| RequestQueue.RequestQueue.Enqueue | simulation/src/aodv/model/aodv-rqueue.cc:48-68 | purges, rejects a waiting twin, otherwise sets the expiry, gives up the front entry of a full queue and appends |
| RequestQueue.RequestQueue.Dequeue | simulation/src/aodv/model/aodv-rqueue.cc:87-101 | purges and hands out the earliest unexpired entry for the destination |
| RequestQueue.RequestQueue.DropPacketWithDst | simulation/src/aodv/model/aodv-rqueue.cc:70-85 | purges and drops all entries for the destination, with their callbacks, in order: the step of `QueueEffects.DropPacketWithDstEffect` |
| QueueEffects.DropPacketWithDstEffect | simulation/src/aodv/model/aodv-rqueue.cc:70-85 | afterwards nothing waits for the destination; each unexpired entry for it has left with its callback, in order, after the outdated ones, and exactly the other unexpired entries wait on in their order |
| QueueEffects.EnqueueEffect | simulation/src/aodv/model/aodv-rqueue.cc:48-68 | after the purge a waiting twin changes nothing; otherwise the entry, expiring a timeout from now, is last, and of a full queue the front has left as most aged |
| QueueEffects.DequeueEffect | simulation/src/aodv/model/aodv-rqueue.cc:87-101 | after the purge exactly the first entry for the destination has gone, handed out, and the others wait on in their order |
| QueueEffects.GetSizeEffect | simulation/src/aodv/model/aodv-rqueue.cc:41-46 | afterwards exactly the unexpired entries wait, in their order, and the outdated ones have left with their callbacks, in order |
| QueueEffects.PurgeEffect | simulation/src/aodv/model/aodv-rqueue.cc:124-138 | the same of `Purge` alone |
| QueueEffects.ChosenIsOne | simulation/src/aodv/model/aodv-rqueue.cc:124-138 | "the entries that pass a test, in their order" names one sequence only |
| RequestQueue.RequestQueue.Purge | simulation/src/aodv/model/aodv-rqueue.cc:124-138 | drops exactly the outdated entries, with their callbacks, in order, and keeps the others in order |
| RequestQueue.RequestQueue.Find | simulation/src/aodv/model/aodv-rqueue.cc:103-113 | true exactly when some entry, outdated or not, has the destination |
| RequestQueue.RequestQueue.GetSize | simulation/src/aodv/model/aodv-rqueue.cc:41-46 | purges and returns the number of entries left |
| IdCache.IdCache.IsDuplicate | simulation/src/aodv/model/aodv-id-cache.cc:35-47 | answers true exactly when the key was last new no longer ago than the lifetime then in force; a new key is remembered from now on, a duplicate changes nothing |
| IdCache.IdCache.Purge | simulation/src/aodv/model/aodv-id-cache.cc:48-53 | removes exactly the expired entries; keys stay unique |
| IdCache.DuplicatesDoNotRefresh | simulation/src/aodv/model/aodv-id-cache.cc:35-47 | each answer after a new one is decided by that one's time and lifetime alone; duplicates in between prolong nothing |
| IdCache.FirstIsNew | simulation/src/aodv/model/aodv-id-cache.cc:35-47 | a key never asked about is new |
| IdCache.AnsweredNew | simulation/src/aodv/model/aodv-id-cache.h:57-77 | a key without an unexpired entry was not seen recently, and its new entry makes the cache remember it |
| IdCache.IdCache.GetSize | simulation/src/aodv/model/aodv-id-cache.cc:55-60 | counts the unexpired entries |
| Buffer.Iterator.WriteHtonU32 | simulation/src/network/model/buffer.h:747-766 | writes four bytes, most significant first, moves past them and touches nothing else |
| Buffer.Iterator.ReadNtohU32 | simulation/src/network/model/buffer.h:793-817 | reads four bytes, most significant first, and moves past them |
| Buffer.WordInPlace | simulation/src/network/model/buffer.h:747-817 | a written word is read back wherever it stands |
| AodvPacket.RreqHeader.Serialize | simulation/src/aodv/model/aodv-packet.cc:173-184 | writes exactly the 23 bytes of the header in place |
| AodvPacket.RreqHeader.Deserialize | simulation/src/aodv/model/aodv-packet.cc:186-202 | sets every field from the 23 bytes ahead |
| AodvPacket.RreqRoundTrip | simulation/src/aodv/model/aodv-packet.cc:173-202 | a route request is read back from its bytes, whatever follows them |
| AodvPacket.RreqBack | simulation/src/aodv/model/aodv-packet.cc:173-202 | any 23 bytes are sent again unchanged |
| AodvPacket.RrepHeader.Serialize | simulation/src/aodv/model/aodv-packet.cc:312-322 | writes exactly the 19 bytes of the header in place |
| AodvPacket.RrepHeader.Deserialize | simulation/src/aodv/model/aodv-packet.cc:324-340 | sets every field from the 19 bytes ahead |
| AodvPacket.RrepRoundTrip | simulation/src/aodv/model/aodv-packet.cc:312-340 | a route reply is read back from its bytes, whatever follows them |
| AodvPacket.RrepBack | simulation/src/aodv/model/aodv-packet.cc:312-340 | any 19 bytes are sent again unchanged |
| WireLayout.RreqLayout | simulation/src/aodv/model/aodv-packet.cc:173-184 | each field of a route request at its offset, words with the most significant byte first |
| WireLayout.RrepLayout | simulation/src/aodv/model/aodv-packet.cc:312-322 | each field of a route reply at its offset |
| WireLayout.RerrLayout | simulation/src/aodv/model/aodv-packet.cc:519-531 | flag, reserved byte, the number of destinations modulo 256, then each address and its sequence number, in rising order of the addresses |
| AodvPacket.RreqHeader.SetGratiousRrep | simulation/src/aodv/model/aodv-packet.cc:222-229 | by or and and-not on the byte: bit 5 becomes the flag, the other seven bits and all other fields stay |
| AodvPacket.RreqHeader.GetGratiousRrep | simulation/src/aodv/model/aodv-packet.cc:231-235 | true exactly when bit 5 is set |
| AodvPacket.RreqHeader.SetDestinationOnly | simulation/src/aodv/model/aodv-packet.cc:237-244 | by or and and-not on the byte: bit 4 becomes the flag, the other seven bits and all other fields stay |
| AodvPacket.RreqHeader.GetDestinationOnly | simulation/src/aodv/model/aodv-packet.cc:246-250 | true exactly when bit 4 is set |
| AodvPacket.RreqHeader.SetUnknownSeqno | simulation/src/aodv/model/aodv-packet.cc:252-259 | by or and and-not on the byte: bit 3 becomes the flag, the other seven bits and all other fields stay |
| AodvPacket.RreqHeader.GetUnknownSeqno | simulation/src/aodv/model/aodv-packet.cc:261-265 | true exactly when bit 3 is set |
| AodvPacket.RrepHeader.SetAckRequired | simulation/src/aodv/model/aodv-packet.cc:367-374 | by or and and-not on the byte: bit 6 becomes the flag, the other seven bits and all other fields stay |
| AodvPacket.RrepHeader.GetAckRequired | simulation/src/aodv/model/aodv-packet.cc:376-380 | true exactly when bit 6 is set |
| Rerr.RerrRoundTrip | simulation/src/aodv/model/aodv-packet.cc:513-553 | a route error is read back from its bytes, and fills exactly its reserved 3 + 8n bytes, if and only if it has at most 255 destinations |
| Rerr.ReadBack | simulation/src/aodv/model/aodv-packet.cc:519-553 | what is read back of any header: its first destinations, as many as the count byte says |
| Rerr.RerrBack | simulation/src/aodv/model/aodv-packet.cc:519-553 | a header read from bytes sends the same bytes again if and only if their addresses were in increasing order |
| Rerr.AcceptedBytes | simulation/src/aodv/model/aodv-packet.cc:533-552 | the final assertion of reading holds if and only if no address comes twice |
| Rerr.EqualsIsEquality | simulation/src/aodv/model/aodv-packet.cc:612-629 | `operator==` is equality of headers with at most 255 destinations |
| Rerr.EqualsIsBlind | simulation/src/aodv/model/aodv-packet.cc:612-629 | every header equals what is read back of it by `operator==`, also when destinations were lost |
| Rerr.ListingIsSorted | simulation/src/aodv/model/aodv-packet.cc:525-530 | the map is written in increasing order of addresses, each pair once |
| Rerr.RerrHeader.Serialize | simulation/src/aodv/model/aodv-packet.cc:519-531 | writes flag, reserved byte, count byte and all pairs in place |
| Rerr.RerrHeader.Deserialize | simulation/src/aodv/model/aodv-packet.cc:533-553 | replaces the header by the one read and returns its length, or fails the assertion when an address came twice |
| Rerr.RerrHeader.AddUnDestination | simulation/src/aodv/model/aodv-packet.cc:582-591 | keeps the first sequence number of an address, never answers false, and stops at the 256th destination |
| Rerr.RerrHeader.RemoveUnDestination | simulation/src/aodv/model/aodv-packet.cc:593-602 | takes out the smallest address, so repeated calls drain the header in order |
| Rerr.RerrHeader.Clear | simulation/src/aodv/model/aodv-packet.cc:604-610 | an empty header with flags 0 |
| Rerr.RerrHeader.SetNoDelete | simulation/src/aodv/model/aodv-packet.cc:567-574 | by or and and-not on the byte: bit 0 becomes the flag, the other seven bits and the destinations stay |
| Rerr.RerrHeader.GetNoDelete | simulation/src/aodv/model/aodv-packet.cc:576-580 | true exactly when bit 0 is set |
| Rerr.DrawnFlagSeen | simulation/src/aodv/model/aodv-packet.h:269-287 | setting the flag never changes bit 7 of the sent byte: a reader of the drawn layout sees the flag that was set if and only if bit 7 had that value |
| Rerr.DrawnFlagStaysClear | simulation/src/aodv/model/aodv-packet.h:269-287 | from a zero flag byte that reader never sees the flag set, over any run |
| Rerr.FirstSeqNoStays | simulation/src/aodv/model/aodv-packet.cc:582-602 | over any run an address keeps the sequence number it came in with until it goes |
| Rerr.CountStaysInByte | simulation/src/aodv/model/aodv-packet.cc:582-610 | over any run of add, remove and clear the count fits its byte |
| FlowGen.Generate | traffic_gen/traffic_gen.py:78-95 | flows come out in non-decreasing time (ties by host), each from a host to another of the `nhost` hosts and of at least one byte; each live host has one heap entry, its next arrival; the flows of each host are its own first arrivals with the destinations and sizes its turns drew, whatever the other hosts do; the loop stops early only when no host is left or a redraw never ends |
| FlowGen.FinishedFile | traffic_gen/traffic_gen.py:80-95 | when the heap is empty, arrival k of a host was written if and only if its arrival k + 1 is not after the end |
| FlowGen.FlowOfHost | traffic_gen/traffic_gen.py:72-95 | the flows of a host, number by number: the first at two seconds plus its first draw, each next one after the gap drawn, destination the first draw that is another host, size as drawn but at least 1 |
| FlowGen.FlowIsWritten | traffic_gen/traffic_gen.py:89-95 | replacing the front of the heap keeps all of this |
| FlowGen.HostRetires | traffic_gen/traffic_gen.py:87-88 | so does popping a host whose next arrival is too late |
| FlowGen.TakeTurn | traffic_gen/traffic_gen.py:81-95 | each turn writes one flow or retires one host |
| FlowGen.DrawDestination | traffic_gen/traffic_gen.py:84-86 | takes the first draw that is another host; the redraw goes on exactly while all draws are the source |
| Launcher.Launch | simulation/scratch/rdma-simulator.cc:1330-1334 | all flows are started, each once, in order and at its own time, if and only if the file's times never run back; otherwise a negative delay stops the program |
| Launcher.StartOfFlow | simulation/scratch/rdma-simulator.cc:161-179 | the i-th start is flow i at its own time on port 10000 plus the number of earlier flows of its host pair, modulo 65536 |
| Launcher.Launcher.ScheduleFlowInputs | simulation/scratch/rdma-simulator.cc:161-179 | starts exactly the flows due now and schedules itself for the next one, which must lie ahead |
| Launcher.PortsOfAPair | simulation/scratch/rdma-simulator.cc:1321-1328 | two flows of a host pair share a 16-bit port if and only if their distance in the pair is a multiple of 65536; the first 65536 are distinct |
| Launcher.GeneratedIsInOrder | traffic_gen/traffic_gen.py:78-95 | generated flows meet what the launcher needs |
| Launcher.GenerateAndLaunch | simulation/scratch/rdma-simulator.cc:155-179 | a generated file always launches completely |

## Left out

- ns-3 itself: the simulator core, devices, congestion control, callbacks' re-entrancy, application installation and the objects behind `clientHelper`.
- simulation/scratch/mp-rdma-simulator.cc: the same routing and optical code again; its `ConfigMems` is the case `mpMode` of this model.
- Configuration files, file output, monitors, plotting, statistics scripts, `main` wiring beyond the parts named above, waf tools, grid.py, antenna models and Python bindings: input and output, or plumbing.
- aodv-neighbor and the AODV routing protocol: they lean on timers and ARP caches that are not part of this model.
- Dictionaries are maps without an order: what is proved holds for every order in which Python or C++ may enumerate them; only the RERR destinations, an ordered C++ map, are enumerated in order.
- Floating-point rounding in custom_rand.py, flow_bins.py and traffic_gen.py: sizes and percentiles are real numbers.
- Truncation toward zero and rounding down differ for negative numbers; the sizes in flow_bins.py are not negative here, which is its precondition.
- Filter texts are lexed: the conversion of digits by `sscanf`, the regular expressions' character classes, the 512-byte buffers and line breaks are not part of this model, and values are as decoded before truncation to their field.
- Node deallocation in trace_filter.hpp.
- Link logging in `CalculateOpticalRoute` (rdma-simulator.cc:428-434).
- More than fifteen optical switches: the constructor of `MemsNode` would index past its fifteen matrices, so at most fifteen is a precondition.
- Numbers of leaves other than sixteen in the optical model: the matrices have sixteen rows, and `ElectricLeafSwitches` would be indexed past its end, so sixteen leaves is a precondition.
- OpticalController.Controller.CalculateMpOpticalRouteFrom: hosts and optical switches with larger ids than some leaf, where the recovered leaf number is wrong (`NodeLists.RecoveredIndexIsRight`) and may be negative; smaller ids are a precondition of the multi-path mode.
- Reading the node types: the topology file's ids are given as one type per node.
- Attachment in the optical model: each leaf's own hosts and its interface towards each optical switch are given, and no host hangs behind two leaves.
- The marking of top-of-rack switches (rdma-simulator.cc:1140-1169) reads links with the host first, while topology_gen/spine_leaf.py:42-46 writes the leaf first: that every host has its switch recorded is a precondition of the path table.
- Path ids are read as little-endian numbers; interface numbers from 1 to 255 that tell a switch's links apart are a precondition, as are hosts with one link.
- Base round-trip times are multiples of `one_hop_delay`, which stays a factor.
- The load balancers' other tables (rdma-simulator.cc:1278-1313).
- Generator termination: zero gaps are possible, so its loop runs for a given number of turns; the redraw of a destination may run out of draws.
- The count line of the flow file (traffic_gen.py:77, 96-97), which is overwritten without padding, and the text format of its times.
- `RequestQueue` with a limit of 0: `front ()` of an empty vector is undefined, which is the precondition of `Enqueue`.
- A truncated RREQ, RREP or RERR buffer: the source reads past its end, so enough bytes are a precondition of each `Deserialize`; the type header and the RREP-ACK header are single bytes and left out.
- `ReadFlowInput`'s assertion that both ends of a flow are hosts.
