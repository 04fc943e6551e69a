# Verification of the simulation's algorithms

A Dafny model, with proofs, of the algorithms that a data-centre network simulation (an ns-3 tree with OmniDMA,
load balancing and AODV) rests on.

- **The network.** `Wiring` builds the neighbour map from a topology file; `Routing` is the breadth-first search
  through switches, the forwarding tables and taking down a link; `Forwarding` says what packets experience;
  `RoundTrips` derives round-trip times; `TorConfig` says which switches have hosts; `TorPaths` and `PathIds` enumerate
  switch-to-switch paths and pack their ports into path ids; `FatTree` generates the topologies. `Topology` holds the
  notions they share. The parts fit together: `FatTreePaths` takes a generated file through building, routing,
  configuring and enumerating, and the path ids entered are exactly those of the (k/2)^2 or k/2 shortest paths of
  every pair of edge switches.
- **Loss recovery.** `Adamap` is the receiver of OmniDMA with its active bitmap, list of closed records and lookup
  table, the wire format of a record, and the queue of the sender.
- **Orders and cycles.** `Topsort` and `Cycles` are the graph functions of the bindings generator.
- **Traffic.** `CustomRand` draws flow sizes, `Flows` writes flow files, `FlowSchedule` starts their flows.
- **State machines.** `TestRunner` is the concurrent test runner; `TestOutcomes` ties what it reports to the steps of the
  execution, and `TestCourses` shows that no course of events is ruled out. `IdCache` and `Neighbors` are the duplicate
  filter and the neighbour list of AODV, `PacketDropper` is the drop model.
- **Encodings.** `DropBitmap` packs drops into records, `BinaryRange` counts in binary.

Code that updates state in place is written as methods over fields, arrays and local lists, and proved against
functions or predicates whose properties are proved as lemmas. Random draws, shuffles, hash-map orders, the clock and
results of external calls are parameters or arbitrary choices.

## What turned out not to hold

- `PathIds.PackAlike`, `PathIds.PathsAlike`: a port number is cut to a byte, so paths whose ports agree modulo 256
  share an id. `FatTree.GeneratedIds`: in a generated network this happens iff the arity is above 512.
- `Adamap.ReceiverAdamap.PacketZeroUnnoticed`: the first packet of a transfer has number 0, and nothing ever notes that
  it is missing; the account of recorded and missing packets holds from packet 1 on, and from packet 0 on iff it has
  arrived.
- `Adamap.View.Rewind`, `Adamap.ReceiverAdamap.RecordNormal`: packet 0 coming on the normal path after others, again or
  late for the first time, while the window is empty moves the window back to the start, and also that account is
  lost; of all packets from 1 on this is the only case. `Adamap.ReceiverAdamap.ComeForward`: it is restored if all
  packets up to the old start follow in order, and `Adamap.LoseAgain`: if instead a window is closed before, packets
  that have been recorded are noted as lost.
- `Adamap.ReceiverAdamap.Record`, `Adamap.ArriveInVain`: a missing packet can arrive in vain and stay missing.
- `Adamap.ReceiverAdamap.FinishMeansComplete`, `Adamap.FinishWithoutPacket0`, `Adamap.FinishWithoutPacket2`: the test for
  the end of a transfer looks neither at packet 0 nor at the active bitmap; it is right iff packet 0 has arrived and
  there is no gap in the bitmap.
- `Adamap.ReceiverAdamap.RecordFirstRetrans`, `Adamap.NeverFinish`: a packet of the first retransmission round that falls
  in the run behind a bitmap with no unset bit, and no other packet, leaves an entry without losses in the table; the
  end is not noted as long as there is one, and `Adamap.NothingToResend`: no packet comes for it.
  `Adamap.ReceiverAdamap.TimeOut`: without such a packet the end is reached.
- `Flows.FirstLine`: the actual number of flows is written over the estimate; with fewer digits, or with more than one
  digit more, the first line does not read back as the number of flows. `FlowSchedule.GeneratedFileRuns`: with fewer
  digits the last flow is started again, at least nine times as often as the file has flows.
  `FlowSchedule.OverrunFileRuns`: with at least two digits more, the first flow is replaced by one made of shifted
  fields.
- `FatTree.Rounding`: with an over-subscription that is not a whole number more servers can be declared than are cabled.
- `Flows.GenerateFlows`: a flow is only written if the next arrival of its host is within the horizon too, so the last
  arrival of every host is lost.
- `FlowSchedule.RepeatIff`: source ports are 16 bits wide and repeat after 65536 flows of a source.
- `Neighbors.Neighbors.Update`: an expired neighbour that has not been purged is silently taken back.
- `PacketDropper.PacketDropper.Receive` reads past its schedule with windows of fewer than two packets, and
  `PacketDropper.UnambiguousIff`: the outputs determine the events only if bursts do not occur or have one length, and
  windows do not occur, or hold only drops, or no packet passes outside of an event.
- `BinaryRange.BinaryRange` gives the empty list, not one empty string, for no bits, and printing with no bits cuts
  nothing off.
- A pair of switches joined directly gets no path id: paths are recorded from two hops on.
- Taking down a link does not clear the delays, transmit times and rates of pairs it separates: `Measured` states that
  they keep their old values.

## Model

| member | source | states |
|---|---|---|
| `Wiring.BuildTopology` | scratch/network-load-balance.cc:1823-1836 | Every line of a topology file becomes a link that is up in both directions, there are exactly the neighbours of the file, and each has the delay and the rate of the last line of its pair; its device number counts the lines of the node up to this one, so the interfaces of a node are numbered apart |
| `Wiring.DevicesInOrder` | scratch/network-load-balance.cc:1823-1836 | The k-th line of a node gives it port k if no pair repeats, so it has exactly as many ports as lines |
| `Routing.Network.CalculateRoute` | scratch/network-load-balance.cc:1061-1112 | The search appends, for every node, exactly the next hops that are one hop closer and may transit, each once; delay, transmit time and rate of every reached node are those of one least-hop route (what these are is said by the rows on `RoundTrips`), and entries of other hosts and of unreached nodes stay |
| `Routing.Search.FoundAtDistance` | scratch/network-load-balance.cc:1077-1102 | When the queue is used up, the recorded distance of a node is its least number of hops over routes through switches only, and nodes without such a route have none |
| `Routing.Search.HopsAreNextHops` | scratch/network-load-balance.cc:1097-1100 | The nodes collected for a node are exactly its neighbours one hop closer that are the host or a switch, without repetition |
| `Routing.Search.QueueBound` | scratch/network-load-balance.cc:1077-1096 | The queue never holds a node twice, so the search ends |
| `Routing.Network.CalculateRoutes` | scratch/network-load-balance.cc:1113-1120 | From an empty map every host gets exactly its next hops everywhere, and nothing else is stored |
| `Routing.Network.SetRoutingEntries` | scratch/network-load-balance.cc:1125-1148 | Each table grows by the ports of the stored next hops, in order, under the address of the host; no other address is touched |
| `Routing.Network.SetUpRouting` | scratch/network-load-balance.cc:1113-1148 | After routing from scratch the tables are exactly those of the current links |
| `Routing.Network.TakeDownLink` | scratch/network-load-balance.cc:1152-1175 | Exactly this link goes down, in both directions, and the tables are again those computed from scratch; a link that is already down changes nothing |
| `Routing.IpRoundTrip` | src/point-to-point/model/settings.cc:5-10 | A host number survives the way into an address and back exactly if it is below 65536 |
| `Routing.IpInjective` | src/point-to-point/model/settings.cc:5-10 | Two 32-bit host numbers have the same address iff they agree in their low 24 bits |
| `Routing.IpBytes` | src/point-to-point/model/settings.cc:5-10 | The address is 1 below the host number counted from 11.0.0, so up to 65535 the number is its two middle bytes |
| `Forwarding.Fabric.EntriesAreNextHops` | scratch/network-load-balance.cc:1125-1148 | The installed ports lead to exactly the next hops, each once, and none belongs to a link that is down |
| `Forwarding.Fabric.NoEntry` | scratch/network-load-balance.cc:1125-1175 | A node has no entry for a host iff it is the host or cannot reach it |
| `Forwarding.Fabric.WalkApproaches` | scratch/network-load-balance.cc:1125-1148 | Every hop along the tables comes one hop closer to the destination |
| `Forwarding.Fabric.Delivery` | scratch/network-load-balance.cc:1125-1148 | Whatever entries are chosen, a packet never visits a node twice, crosses only switches, is never stuck before the destination and is there after exactly its distance in hops |
| `Forwarding.Fabric.SameAsFromScratch` | scratch/network-load-balance.cc:1152-1175 | Two installations over the same up links and interface numbers have the same entries, whatever the histories and enumeration orders |
| `RoundTrips.Baseline.Measure` | scratch/network-load-balance.cc:2146-2165 | The round-trip and bandwidth-delay tables are symmetric and hold the values of the ordered pairs: twice the delay plus the transmit time, and the whole number of bytes that this time takes at the rate of the pair, each modulo 2^64; the two maxima are the largest of them |
| `RoundTrips.CostIsSum` | scratch/network-load-balance.cc:1085-1089 | The measured delay and transmit time are the sums over the links of the route modulo 2^64; each link adds the whole number of nanoseconds that eight bits per byte of the payload take at its rate |
| `RoundTrips.CostIsLeastRate` | scratch/network-load-balance.cc:1090 | The measured rate is at most that of every link of the route and is the rate of one of them; only without a hop is it the start value |
| `RoundTrips.OneHopTx` | scratch/network-load-balance.cc:1085-1089 | The delay stored for a host and its neighbour is that of their link, and the transmit time is the whole number of nanoseconds that the payload takes on it |
| `RoundTrips.RttOfRoute` | scratch/network-load-balance.cc:2146-2165 | The round-trip time of a pair is twice the link delays plus the transmit times, link by link the whole nanoseconds that the bits of the payload take, of a least-hop route, modulo 2^64, and the rate that enters its bandwidth-delay product is the least one of the same route |
| `TorPaths.DistanceIsPathLength` | scratch/network-load-balance.cc:2205-2331 | A switch is k+1 hops from a single-homed host iff its shortest switch paths to the switch of the host have k hops, and then every switch path of k hops is a shortest one |
| `TorPaths.NextHopContinues` | scratch/network-load-balance.cc:2226-2302 | The next hops of a switch are exactly the switches that continue a shortest path |
| `TorPaths.PortSeqsArePaths` | scratch/network-load-balance.cc:2226-2302 | The port sequences spelled by following next hops are exactly those of the shortest switch paths |
| `TorPaths.PortsIdentifyPath` | scratch/network-load-balance.cc:2237-2302 | Two paths from a switch with the same port sequence are the same path |
| `PathIds.UnpackPack` | scratch/network-load-balance.cc:2205-2341 | Ports between 1 and 255 can be read back from the path id |
| `PathIds.IdBytes` | scratch/network-load-balance.cc:2239-2260 | The id of a path of up to four hops has the low byte of the interface of each hop as a byte, the first hop lowest, and zero behind the path |
| `PathIds.PackAlike` | scratch/network-load-balance.cc:2239-2260 | Port sequences of one length have the same id iff they agree hop by hop modulo 256 |
| `PathIds.PathsAlike` | scratch/network-load-balance.cc:2205-2341 | Two shortest paths of a pair have the same id iff their ports agree hop by hop modulo 256 |
| `PathIds.LargePortsCollide` | scratch/network-load-balance.cc:2239-2260 | Adding 256 to a port anywhere on a path leaves the id the same |
| `PathIds.LastHopTest` | scratch/network-load-balance.cc:2226-2302 | The switch of the host is the only next hop exactly at distance two, which is what the nested loops test |
| `PathIds.PathTable.Insert` | scratch/network-load-balance.cc:2239-2260 | The four buffer bytes are packed little-endian and added to the ids of the pair |
| `PathIds.PathTable.ThirdHops` | scratch/network-load-balance.cc:2295-2335 | The innermost loop adds exactly the ids of all continuations and the round-trip time of two one-hop delays for each of four hops, leaves the bytes beyond the path alone, and fails iff the pair is more than four hops apart |
| `PathIds.PathTable.SecondHops` | scratch/network-load-balance.cc:2262-2335 | The same for the middle loop, with paths of three or four hops; all buffer bytes it used are zero again |
| `PathIds.PathTable.Enumerate` | scratch/network-load-balance.cc:2226-2341 | From one source switch and one host the enumeration adds the ids of all shortest paths of two to four hops, records as the round-trip time two one-hop delays for each of their hops, and fails iff the switches are further apart |
| `PathIds.PathTable.Build` | scratch/network-load-balance.cc:2205-2341 | Whatever hosts have no link: the assertion is never reached iff no switch with a host is more than four hops from another one; then the ids of any pair are exactly those of its shortest paths if both have hosts, whatever hosts contributed them, and none otherwise, and a base round-trip time is recorded for exactly those pairs whose paths have at least two hops: two one-hop delays for each hop |
| `TorConfig.ConfigureTors` | scratch/network-load-balance.cc:2170-2201 | Exactly the switches named after a host on some line count as having hosts, and every address of such a host gets the switch of the last line that names it first |
| `TorConfig.SingleHomedIff` | scratch/network-load-balance.cc:2170-2201 | The configured table knows the switch of every host with a link iff each of these has one neighbour, a switch, on a line that names the host first; a look-up that finds nothing gives node 0 |
| `PathIds.IdsArePathIds` | scratch/network-load-balance.cc:2205-2341 | Every host below a switch contributes the same ids |
| `PathIds.DistinctPathIds` | scratch/network-load-balance.cc:2205-2341 | With at most 255 ports per switch different shortest paths have different ids |
| `FatTree.Generate` | config/fat_topology_gen.py:1-88 | For every even arity and every over-subscription, whole or not, the written lines are exactly the links of the fat tree, in strictly ascending order and so without repetition, and the declared counts are those of the tree and its spare servers |
| `FatTree.LinkNumbers` | config/fat_topology_gen.py:40-69 | The links in numbers: the servers of one rack switch are consecutive, an edge and an aggregation switch are linked iff their numbers belong to one pod, and an aggregation and a core switch iff the first has that place in its pod which the second has as its group |
| `FatTree.TreeIs` | config/fat_topology_gen.py:9-35 | The servers of a switch, and those of a pod, are the whole parts of their shares |
| `FatTree.Rounding` | config/fat_topology_gen.py:21-22 | Servers rounded down by the pod are never fewer than those rounded down by the switch, and no server is declared without a link iff the fractions lost by the switches of a pod stay below one server |
| `FatTree.NoneSpare` | config/fat_topology_gen.py:21-31 | A whole over-subscription declares exactly the servers it cables |
| `FatTree.SpareIsolated` | config/fat_topology_gen.py:27-48 | A declared server that is not cabled has no link |
| `FatTree.WriteServerLinks` | config/fat_topology_gen.py:42-48 | The first loops write every server link once |
| `FatTree.WriteTorLinks` | config/fat_topology_gen.py:50-58 | The second loops write every link inside the pods once |
| `FatTree.WriteCoreLinks` | config/fat_topology_gen.py:60-69 | The third loops write every core link once |
| `FatTree.Tree.IdInjective` | config/fat_topology_gen.py:27-35 | Different places in the tree have different node numbers |
| `FatTree.Tree.IdSurjective` | config/fat_topology_gen.py:76-88 | Every node number below the declared count belongs to a place, the cabled servers first, then the spare ones, and the servers are exactly the numbers that are not declared switches |
| `FatTree.LinksGoUp` | config/fat_topology_gen.py:40-69 | No link is written again in the other direction |
| `FatTree.OneLinkPerPod` | config/fat_topology_gen.py:60-69 | Each core switch has exactly one link into each pod |
| `FatTree.PathsBetweenEdges` | config/fat_topology_gen.py:40-69 | Between two edge switches the shortest paths are exactly the listed ones: k/2 of two hops in one pod, (k/2)^2 of four hops across pods |
| `FatTree.IdsBetweenEdges` | scratch/network-load-balance.cc:2239-2331 | On a fat tree with at most 255 ports the path ids of two edge switches are in one-to-one correspondence with those paths |
| `FatTree.NeverTooLarge` | scratch/network-load-balance.cc:2331-2341 | On a fat tree, spare servers or not, the enumeration never finds a pair that is too far apart |
| `FatTree.BuildFatTree` | config/fat_topology_gen.py:1-88 | The network built from a generated file is the fat tree with all links up, and the ports of every node are numbered 1, 2, ... in the order of its neighbours; so with few enough ports all numbers fit a byte |
| `FatTree.PeersAreNeighbours` | config/fat_topology_gen.py:40-69 | The lines of a node in the file lead to exactly its neighbours in the tree, in the order of their numbers |
| `FatTree.SameIdIff` | scratch/network-load-balance.cc:2239-2331 | In a generated network two shortest paths between edge switches have the same id iff their aggregation switches, and across pods their core switches, have numbers that agree modulo 256 |
| `FatTree.GeneratedIds` | scratch/network-load-balance.cc:2239-2331 | Between two edge switches of a generated network the path ids tell all shortest paths apart iff the arity is at most 512 |
| `FatTreePaths.ServerUnderRack` | config/fat_topology_gen.py:42-48 | In every network that realises the tree the only link of a server leads to the switch of its rack |
| `FatTreePaths.FileIsSingleHomed` | scratch/network-load-balance.cc:2170-2201 | What the enumeration requires holds of every network built and configured from a generated file |
| `FatTreePaths.TorsAreRacks` | scratch/network-load-balance.cc:2170-2201 | The switches with hosts are exactly the edge switches, if the racks have servers at all |
| `FatTreePaths.PathIdsOfFatTree` | scratch/network-load-balance.cc:1823-2341 | From the generated file to the table: building, routing, configuring and enumerating always succeed, the ids entered for any two nodes are exactly those of the listed shortest paths between edge switches, the base round-trip time is four one-hop delays in a pod and eight across pods, and a pair has as many ids as paths iff the arity is at most 512 |
| `Cycles.IsRotated` | bindings/python/rad_util.py:735-775 | True iff one sequence is a rotation of the other |
| `Cycles.Report` | bindings/python/topsort.py:343-385 | A found cycle is added unless a rotation of it has been reported |
| `Cycles.FindCycles` | bindings/python/topsort.py:235-392 | Terminates; reports only simple cycles, no two of them rotations of each other, and every simple cycle up to rotation |
| `Cycles.CycleAhead` | bindings/python/topsort.py:343-385 | Every cycle that meets a walk from an explored start has been reported, which is why skipping visited nodes is safe |
| `Cycles.AllFound` | bindings/python/topsort.py:343-385 | With every node reached from some explored start, every cycle has been reported |
| `Topsort.CountParents` | bindings/python/topsort.py:77-95 | The counters hold the number of pairs with the item as child, and every pair has its place among the children of its parent, in the order of the pairs |
| `Topsort.Topsort` | bindings/python/topsort.py:61-112 | Returns every mentioned item once with each parent before its child, or raises; it raises iff there is a cycle, and then with exactly the items that no cycle leads to, in order, and the counters and child lists of all others. Deleted counters are never decremented |
| `Topsort.OrderedHasNoCycle` | bindings/python/topsort.py:61-112 | An order of all items with parents before children rules out any cycle, self-loops included |
| `Topsort.ParentsEverywhere` | bindings/python/topsort.py:104-112 | If every item left over has a parent left over, there is a cycle among them |
| `Topsort.WithoutParent` | bindings/python/topsort.py:203-232 | The level just opened holds exactly the items with counter zero, each once |
| `Topsort.TopsortLevelsCore` | bindings/python/topsort.py:174-232 | For any counters and child lists that belong together, items without any relation and empty child lists included: each item is in the level equal to the length of the longest parent chain that ends at it, also among the levels yielded before an error; raises iff there is a cycle, with the counters and child lists of the items that are in no level |
| `Topsort.PairsOf` | bindings/python/topsort.py:195-201 | Every dictionary of child lists is that of some pair list |
| `Topsort.TopsortLevels` | bindings/python/topsort.py:114-172 | The same from the pair list, repeated pairs included; concatenating the levels gives a topological order of their items with each item once |
| `DropBitmap.BuildBitmaps` | analysis_switch_drop.py:51-90 | The records stand for exactly the dropped sequence numbers of any list, with bits 0 for drops and 1 otherwise; if the input increases strictly each begins at the first drop left and has the longest run possible, and no list of such records for the same numbers is shorter |
| `DropBitmap.OneEach` | analysis_switch_drop.py:51-90 | One record of any other encoding cannot hold the first drops of two greedy records |
| `DropBitmap.GreedyIsMinimal` | analysis_switch_drop.py:51-90 | Greedy record lists are minimal among all encodings |
| `Adamap.SplitKeeps` | src/point-to-point/model/adamap-receiver.cc:692-750 | Splitting a record in its bitmap part and the rest loses no packet and invents none |
| `Adamap.View.Close` | src/point-to-point/model/adamap-receiver.cc:332-400 | Closing the window on a packet beyond it keeps the account of received and missing packets |
| `Adamap.View.Rewind` | src/point-to-point/model/adamap-receiver.cc:332-400 | Going back to sequence number zero with an empty window breaks that account for every choice of the highest packet |
| `Adamap.View.FullIff` | src/point-to-point/model/adamap-receiver.cc:332-400 | An account from packet 1 on is one from packet 0 on iff packet 0 is recorded |
| `Adamap.ReceiverAdamap.RecordNormal` | src/point-to-point/model/adamap-receiver.cc:332-400 | On the normal path every packet from 1 up to the highest one stays either recorded or noted as missing, never both, and the new state of every branch is given; the one exception is packet 0 coming, again or late for the first time, after others while the window is empty. As long as the start is behind after that, the account of the records stays, unless a window is closed |
| `Adamap.ReceiverAdamap.SplitAdamap` | src/point-to-point/model/adamap-receiver.cc:692-750 | Cuts off a bitmap-sized part that has losses, skipping parts without, and changes nothing about what is missing; what is left of a record with losses has losses. Both are parts of the record: same number, aligned to the size, and exactly its losses in their range |
| `Adamap.ReceiverAdamap.PutLinkedListHeadToTable` | src/point-to-point/model/adamap-receiver.cc:620-660 | Moving the head of the list to the table keeps exactly the missing packets and all older entries; each new entry is one of the bitmap-sized parts of the head, and has losses |
| `Adamap.ReceiverAdamap.FindSequenceInHeadBitmaps` | src/point-to-point/model/adamap-receiver.cc:752-790 | Finds the list node whose range holds the packet iff there is one |
| `Adamap.ReceiverAdamap.PutHeadsToTable` | src/point-to-point/model/adamap-receiver.cc:412-415 | The first nodes of the list move to the table with the same missing packets; every new entry is one of their bitmap-sized parts, and has losses |
| `Adamap.ReceiverAdamap.ListTimeoutKeeps` | src/point-to-point/model/rdma-hw.cc:833-888 | A timeout of list nodes loses no missing packet, keeps the account, and adds only bitmap-sized parts of these nodes |
| `Adamap.ReceiverAdamap.RecordFirstRetrans` | src/point-to-point/model/adamap-receiver.cc:400-530 | A packet of the first retransmission round removes exactly itself from what is missing; the failures and the assertion have their exact conditions, and it adds an entry without losses iff it falls in the run behind a bitmap with no unset bit. The nodes before its own go to the table in parts; a packet of the bitmap leaves the node in the list, without this loss, iff a later packet of the bitmap is lost, and otherwise the bitmap part leaves the list, for the table iff an earlier one is lost, and the code says whether the run stays; before a packet of the run the parts up to it go to the table |
| `Adamap.ReceiverAdamap.FillHole` | src/point-to-point/model/adamap-receiver.cc:423-486 | A packet in the bitmap of the head: code -14 iff a later packet of this bitmap is lost, and then the head stays without this loss; otherwise the bitmap part is gone from the list, in the table iff an earlier packet of it is lost, and the code is -16 iff nothing of the head is left, else -17 |
| `Adamap.ReceiverAdamap.FillRun` | src/point-to-point/model/adamap-receiver.cc:487-521 | A packet in the run of the head: the head is cut into bitmap-sized parts that go to the table up to the one with the packet, which stays with the rest, without this loss |
| `Adamap.ReceiverAdamap.RecordHighRetrans` | src/point-to-point/model/adamap-receiver.cc:532-608 | A packet of a later round removes at most itself from what is missing: its entry stays without this loss, or goes with its last loss, and all others stay; an unknown table entry and a packet outside the range of its entry have their exact conditions and change nothing, no entry has a part behind its bitmap, and an entry without losses goes iff the packet is addressed to it and in its range |
| `Adamap.ReceiverAdamap.Record` | src/point-to-point/model/adamap-receiver.cc:332-610 | Over any sequence of packets of any round only packets that have arrived are recorded, and the account of recorded and missing packets holds apart from that exception, also while the start is behind. A missing packet that arrives stays missing iff it arrives in vain; of the others exactly the skipped ones become missing; entries without losses come and go under exact conditions |
| `Adamap.ReceiverAdamap.ReceiveUdp` | src/point-to-point/model/rdma-hw.cc:552-680 | The mark of the last packet is kept, and the end is noted iff the test passes after a packet that was not dropped for an unknown entry |
| `Adamap.ReceiverAdamap.PacketZeroUnnoticed` | src/point-to-point/model/adamap-receiver.cc:332-400 | A packet 0 that has not arrived is never noted as missing: the account from packet 0 on is right iff packet 0 has arrived |
| `Adamap.ReceiverAdamap.FinishMeansComplete` | src/point-to-point/model/adamap-receiver.cc:277-279 | When the test for the end passes, every packet from 0 up to the highest one has been recorded iff packet 0 has arrived and no unset bit of the active bitmap comes before a set one |
| `Adamap.ReceiverAdamap.CompleteMeansFinish` | src/point-to-point/model/adamap-receiver.cc:277-279 | With every packet recorded, the last one seen and no list left, the test passes iff no table entry without losses is left |
| `Adamap.ReceiverAdamap.TimeOut` | src/point-to-point/model/rdma-hw.cc:833-888 | With every packet recorded and the last one seen, once the list has timed out the test passes if no packet of the first round has ever come for the run behind a bitmap with no unset bit, and iff no entry without losses was there |
| `Adamap.ReceiverAdamap.ComeForward` | src/point-to-point/model/adamap-receiver.cc:345-350 | After packet 0 has moved the start back, the packets up to the old start coming in order restore the account as it was |
| `Adamap.ReceiverAdamap.MoveBackAndForth` | src/point-to-point/model/adamap-receiver.cc:345-350 | So packet 0 coming again does no harm if all packets up to the old start follow it in order |
| `Adamap.NothingToResend` | src/point-to-point/model/adamap-sender.cc:31-64 | For such an entry the sender queues no packet, so none comes that would remove it |
| `Adamap.FinishWithoutPacket0` | src/point-to-point/model/rdma-hw.cc:552-680 | A run of the receiver, for every bitmap size: packet 1 comes as the last one, and the end is noted without packet 0 and with nothing missing |
| `Adamap.FinishWithoutPacket2` | src/point-to-point/model/rdma-hw.cc:552-680 | A run: packets 0, 1 and 3 come, and the end is noted while packet 2 is missing |
| `Adamap.ArriveInVain` | src/point-to-point/model/rdma-hw.cc:552-680 | A run: packet 2 is skipped, arrives on the normal path and stays missing |
| `Adamap.NeverFinish` | src/point-to-point/model/rdma-hw.cc:552-680 | A run: all packets are recorded and the last one has been seen, an entry without losses is in the table, and the end is not noted |
| `Adamap.LoseAgain` | src/point-to-point/model/rdma-hw.cc:552-680 | A run: after packet 0 has moved the start back a window is closed, and a packet that has been recorded is noted as lost |
| `Adamap.FinishOnReceipt` | src/point-to-point/model/rdma-hw.cc:552-680 | A run: the only loss arrives in the first round, the list and the table are empty, and the end is noted on this receipt |
| `Adamap.BitmapToWireWords` | src/point-to-point/model/adamap.h:119-132 | The four 64-bit words hold the first 256 bits |
| `Adamap.WireWordsToBitmap` | src/point-to-point/model/adamap.h:134-145 | Each bit is read from its word |
| `Adamap.Transmit` | src/point-to-point/model/adamap.h:119-145 | A bitmap of up to 256 bits survives the header |
| `Adamap.LossesAreLost` | src/point-to-point/model/adamap-sender.cc:31-64 | The queued numbers are exactly the lost packets of the record |
| `Adamap.LossesAscend` | src/point-to-point/model/adamap-sender.cc:31-64 | They are queued in ascending order, so none twice |
| `Adamap.SenderAdamap.Enqueue` | src/point-to-point/model/adamap-sender.cc:31-64 | Behind what is queued already come all losses of the record, once each and in ascending order, with the number of the record and the round and table index given |
| `Adamap.SenderAdamap.GetRetransSeq` | src/point-to-point/model/adamap-sender.cc:114-137 | Gives the oldest queued loss with the number, the round and the table index of its record, and removes it if asked to; with nothing queued it gives 0 and leaves the three as they were |
| `TestRunner.Step` | test.py:921-989 | Every step of any thread, and an interrupt at any time, keeps the record of where each job is |
| `TestRunner.RunInv` | test.py:1286-1624 | In every reachable state of every interleaving each taken job is with one worker or once among the outputs |
| `TestRunner.NoDeadlock` | test.py:1575-1737 | With at least one worker no reachable state before the end is stuck |
| `TestRunner.StepShrinks` | test.py:921-1737 | Every step but an interrupt brings the end closer |
| `TestRunner.ExecutionBound` | test.py:921-1737 | So every execution ends after a bounded number of steps |
| `TestRunner.AtTheEnd` | test.py:1575-1803 | At the end every dispatched job has come back exactly once, every worker has returned on its own stop job, both queues are empty, and the status is 0 iff every job passed or was skipped |
| `TestOutcomes.OutcomesGenuine` | test.py:921-989 | Every job that has come back had one look of a worker; it is marked undone iff an interrupt came before, and executed iff it is neither undone nor skipped, and then its return code is that of the one step that completed it |
| `TestOutcomes.Verdict` | test.py:1598-1803 | At the end each counter is the number of jobs whose steps gave its outcome, and the status is 0 iff every job was executed with code 0, or skipped, with no interrupt before, and 1 otherwise |
| `TestCourses.EveryCourse` | test.py:921-1737 | For all return codes, and wherever an interrupt comes among the jobs, there is an execution to the end that brings exactly these codes back and the jobs from the interrupt on undone |
| `IdCache.IdCache.constructor` | src/aodv/model/aodv-id-cache.h:49-49 | A new cache is empty and ready for calls from its time on |
| `IdCache.IdCache.IsDuplicate` | src/aodv/model/aodv-id-cache.cc:36-50 | Yes iff an earlier call for the same key was answered no and its entry, with the lifetime of that moment, reaches up to now |
| `IdCache.IdCache.Purge` | src/aodv/model/aodv-id-cache.cc:51-56 | The purged cache is exactly the live part of the whole history, in order |
| `IdCache.IdCache.GetSize` | src/aodv/model/aodv-id-cache.cc:58-63 | The number of accepted calls that have not expired, all with different keys |
| `IdCache.LiveLater` | src/aodv/model/aodv-id-cache.h:71-77 | What expires stays expired: purging early never changes a later answer |
| `Neighbors.Neighbors.Update` | src/aodv/model/aodv-neighbor.cc:74-92 | Prolongs a known neighbour without purging, or enters a new one and purges; the exact new list and reports, no expiry moved earlier |
| `Neighbors.Neighbors.Purge` | src/aodv/model/aodv-neighbor.cc:102-123 | Exactly the neighbours that have expired or are flagged leave the list and are reported, in order; the others stay as they were, and none is flagged |
| `Neighbors.Neighbors.ProcessTxError` | src/aodv/model/aodv-neighbor.cc:158-170 | Exactly the neighbours with this hardware address, and those that have expired, leave the list and are reported, in order; the others stay as they were |
| `Neighbors.Neighbors.IsNeighbor` | src/aodv/model/aodv-neighbor.cc:47-58 | True iff an entry for the address has not expired |
| `Neighbors.Neighbors.GetExpireTime` | src/aodv/model/aodv-neighbor.cc:60-71 | The time left, or zero |
| `Neighbors.PurgeStep` | src/aodv/model/aodv-neighbor.cc:102-123 | On every link openings and failures keep alternating, and the open links are those in the list |
| `Flows.GenerateFlows` | traffic_gen/traffic_gen.py:78-95 | Flows come out in order of time, and at one time in order of their hosts; each takes destination, size and gap from a draw of its own, in the order of the draws, starts at the next arrival of its host and leaves room for one more before the horizon; no host stops before a draw that no flow has used leads beyond the horizon, and so each loses its last arrival |
| `Flows.FlowBound` | traffic_gen/traffic_gen.py:78-95 | With no gap of zero only so many flows fit, so the loop ends |
| `Flows.FirstLine` | traffic_gen/traffic_gen.py:74-97 | The first line reads back as the number of flows iff this has as many digits as the estimate, or one more |
| `Flows.HeaderNumber` | traffic_gen/traffic_gen.py:74-97 | With at most one digit more than the estimate, the number read from the first line is the number of flows with the digits of the estimate appended that it does not cover |
| `Flows.HeaderOverrun` | traffic_gen/traffic_gen.py:74-97 | With more digits, the number read is the number of flows continued by what it leaves of the first source, and the reading goes on behind that |
| `FlowSchedule.Scheduler.ScheduleFlowInputs` | scratch/network-load-balance.cc:375-455 | One event starts exactly the flows due now, each with the client described for `Run`, and comes back at the time of the next one |
| `FlowSchedule.Scheduler.Run` | scratch/network-load-balance.cc:359-455 | Whatever number of flows is announced: the simulation goes well iff the flows read are in order from time zero on and can be started; then every one is started once, in file order, at its time, from its source to its destination with its size, or 1 for 0; the source port is 10000 plus the number of earlier flows of the source modulo 65536, and the destination port 100 plus that of earlier flows to the destination. Past the end of the file the last flow is read again |
| `FlowSchedule.RepeatIff` | scratch/network-load-balance.cc:386-391 | A pair of source and source port repeats iff some source has more than 65536 flows |
| `FlowSchedule.GeneratedFileRuns` | scratch/network-load-balance.cc:1706-1709 | A generated file goes well iff the announced number fits 32 bits (and is 0 if there is no flow); with no digits of the estimate left over exactly its flows are started, otherwise at least ten times as many, the surplus being its last flow again and again |
| `FlowSchedule.OverrunFileRuns` | scratch/network-load-balance.cc:1706-1709 | A generated file whose count runs into its first source goes well iff the number announced fits 32 bits and the flow made of the rest of the first line can be started; then this is started in place of the first one, each field being what is read one place later on its line, and the last one again and again |
| `CustomRand.CustomRand.TestCdf` | traffic_gen/custom_rand.py:5-13 | Accepts exactly the lists that rise strictly in both coordinates from 0 to 100 percent; raises on the empty one |
| `CustomRand.CustomRand.SetCdf` | traffic_gen/custom_rand.py:14-18 | Stores exactly the accepted lists |
| `CustomRand.CustomRand.GetPercentileFromValue` | traffic_gen/custom_rand.py:31-38 | The percentile of a value from zero to the greatest, otherwise -1 |
| `CustomRand.CustomRand.GetValueFromPercentile` | traffic_gen/custom_rand.py:39-44 | The value of a percentile up to 100 |
| `CustomRand.CustomRand.GetAvg` | traffic_gen/custom_rand.py:19-27 | The average is the integral over all percentiles |
| `CustomRand.CustomRand.GetIntegralY` | traffic_gen/custom_rand.py:45-56 | The integral up to a percentile |
| `CustomRand.Inverse` | traffic_gen/custom_rand.py:31-44 | Values and percentiles are inverse to each other, also left of the first point |
| `CustomRand.LiesOnLine` | traffic_gen/custom_rand.py:31-44 | The value of a percentile lies on the straight line between the ends of the first segment that ends at or after it |
| `CustomRand.Rising` | traffic_gen/custom_rand.py:39-44 | A higher percentile has a greater value, and the other way round |
| `CustomRand.IntegralBounds` | traffic_gen/custom_rand.py:45-56 | From one percentile to a higher one the integral grows by at least their distance times the lower value and at most their distance times the higher one |
| `CustomRand.AverageInRange` | traffic_gen/custom_rand.py:19-27 | The average lies between the least and the greatest value |
| `BinaryRange.BinaryRange` | bindings/python/rad_util.py:632-660 | For at least one bit: all strings in order, the k-th being what printing k gives; for no bits the empty list |
| `BinaryRange.Increment` | bindings/python/rad_util.py:645-659 | One ripple of carries adds one, with the overflow in the last carry |
| `BinaryRange.PrintedReadsBack` | bindings/python/rad_util.py:74-105 | Printing fails iff the number is negative or does not fit, otherwise it gives the right number of bits and reads back as the number |
| `BinaryRange.ReadPrintsBack` | bindings/python/rad_util.py:74-130 | Every string is what printing its number gives |
| `BinaryRange.BitAt` | bindings/python/rad_util.py:74-130 | The most significant bit comes first: bit k from the end says whether the number halved k times is odd |
| `PacketDropper.PacketDropper.Receive` | playground/make_drop.cpp:55-111 | The outputs are those of the events drawn, a burst as long and a window with as many drops as drawn, each complete but perhaps the last; the exact condition of reading past the schedule, which needs windows of less than two packets |
| `PacketDropper.PacketDropper.StartEvent` | playground/make_drop.cpp:71-111 | A packet outside of any event passes or begins exactly the event drawn: one begins iff the draw times the mean number of drops of an event is below the overall rate; a burst has at least one drop, and the first output is that of its kind |
| `PacketDropper.RateIsKept` | playground/make_drop.cpp:29-44 | The probability of an event times the mean number of its drops, half the sum of least and greatest count for a window, is the overall rate |
| `PacketDropper.UnambiguousIff` | playground/make_drop.cpp:55-111 | The outputs of complete events determine the events iff bursts, if the ratios allow any, have one length, and windows, if they allow any, are not empty and hold only drops unless no packet can pass outside of an event |
| `PacketDropper.OutputsTell` | playground/make_drop.cpp:55-111 | Under that condition the outputs so far determine the events at every moment, but for the schedule of a window that has not given all its outputs |
| `PacketDropper.RunsTell` | playground/make_drop.cpp:55-111 | Two runs with the same outputs have then had the same events, but for the schedule of a window both are in |
| `PacketDropper.Replay` | playground/make_drop.cpp:55-111 | Every sequence of events that the configured ratios allow is that of some run, if windows do not occur or have at least two packets |
| `PacketDropper.TwoRuns` | playground/make_drop.cpp:55-111 | Without the condition there are two runs with the same outputs and different events, if windows do not occur or have at least two packets |

## Left out

- Network devices, queues, switch memory management, congestion control, and the Conga, Letflow and ConWeave modules: packet-level simulation.
- Queue pair redistribution and device shutdown when a link goes down: they do not touch the tables.
- Routing.Network.TakeDownLink: the nested maps of the program are keyed by pairs of nodes, so empty inner maps are not modelled.
- FatTreePaths.PathIdsOfFatTree: trees with more than 2^24 servers, whose addresses repeat.
- PathIds.PathTable.Build: fields other than the path ids and the base round-trip time of the load balancers are not modelled.
- FatTree.Generate: the file text, rates and delays are not modelled, and the products with the over-subscription are exact.
- Adamap.ReceiverAdamap.Record: timers, retransmission timeouts, DMA delays, the head cache, what is noted after a window has been closed while the start is behind, the least-recently-used order of the table, tracing and 32-bit wrap-around are not modelled.
- Adamap.BitmapToWireWords: setting a clear bit is modelled as adding its value.
- Topsort.TopsortLevelsCore: the lookup errors for counters that do not count the parents in the child lists, as its documentation asks, are not modelled.
- TestRunner.RunInv: the threads' steps are atomic between their accesses to the queues and the flag; output files, subprocesses and an exception in a worker are not modelled.
- Neighbors.Neighbors.Purge: the timer is an additional purge at any time, the link-failure callback does not call back and does not change, and `Clear` is not modelled.
- IdCache.IdCache.IsDuplicate: times are unbounded.
- Flows.GenerateFlows: the number of draws is finite, so a run that draws only zero gaps for ever is only covered up to each of its prefixes.
- FlowSchedule.Scheduler.Run: times are whole nanoseconds.
- FlowSchedule.OverrunFileRuns: a count so long that it covers more than the source of the first flow, and fields of flows that do not fit 32 bits.
- CustomRand.CustomRand.GetAvg: exact reals instead of floating point.
- PacketDropper.PacketDropper.Receive: probabilities are arbitrary draws, so nothing is said about rates.
- The other functions of `rad_util.py`, the parsing around the drop bitmaps, plotting, command lines, configuration files and output: input and output.
