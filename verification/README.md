# Horus controller: a verified model of its replicated state

Horus keeps the state of a rack-scale scheduler in several forms: a tree of spines, leaves and servers
with ID maps beside it, virtual clusters with two inverted indexes, switch tables on leaves and spines,
and replicas of all this at the spine and leaf controllers. Each form is updated incrementally. This
project models those forms and their updates and proves that they stay in agreement.

`dafny verify dfyconfig.toml` checks the whole project.

## How it is organised

Values and specification functions:

- `Words` is uint16 arithmetic.
- `TopologySpec` has the children of a spine as records, and every topology operation on them.
- `WorkerRanges` proves that worker ranges tile, in 16-bit arithmetic.
- `Admission` says which leaves and servers are accepted, and what that keeps.
- `Histories` reads a set of IDs off the events of a run: what was turned on and not off since.
- `SpineContents` separates what a spine holds from the indexes and ranges that follow from it.
- `Codec` is the wire form and its round trip.

Objects, written as the Go code is (loops, in-place updates, shared slices) and proved against those functions:

- `TopologyTree` has `Node` and `Topology`. `Topology.Valid` says that tree and maps agree.
- `TopologyCodec` encodes a topology and builds one.
- `VirtualClusters`, `VCLists` and `VCManagement` have the clusters, the slice lists and the manager;
  `VCRegistry` is the same registry as a value.
- `CentralServer` has the central request handlers.
- `SpineBus` and `LeafBus` have the table writers and bus handlers; `HealthManager` has the health manager.

Protocols, as transition systems and runs:

- `Replication` and `CentralLog`: central to spine, over separate channels.
- `CentralRuns` and `CentralHandlers`: the same from the requests on, with the registry's answers, and the handlers of
  `CentralServer` as the steps of such runs.
- `VCChannel` and `ReplicatedClusters`: the channel of virtual clusters, and central's registry against a spine's.
- `VCReplication`, `VCBroadcast` and `VCDelivery`: spine to leaf, for virtual clusters. `VCRequests` says what each request
  and each run makes of them, and `ControllerHandlers` has the handlers of spine and leaf as their steps.
- `IndexPropagation`, `IndexHistory` and `IndexArrival`, over `IdLists`: leaf indexes, from central and the spine to the leaves.
- `SpineTables` and `SpineHistory`, over `SpineShape`: topology changes against the spine's tables and pending leaves.
- `LeafTables` and `FailedBatch`: server changes against the leaf's table; `LeafReports`: the same with queued reports.
- `HealthRuns` and `HealthHistory`: pings, scans and removals.

## What turned out to need a condition

Each of these has the exact condition and an input on which it fails.

- `AddServerToLeaf` reads a stored end of 0 as "no workers". It keeps the ranges tiled iff the leaf's
  workers do not number 1 modulo 2^16 (`AppendServerTilesIff`, `SecondServerOverlaps`). The same condition decides
  whether the switch rows stay right (`AddIsRightIff`). A later removal tiles the leaf again (`TiledIffNotOff`). Two
  merges of the same messages may disagree on ranges (`RangesAgreeIff`, `MergeOrderShowsAtOne`).
- A leaf without workers may store 0 or 65535, depending on the order of messages
  (`MergeOrderShowsInEmptyLeaf`). Equality of ranges is therefore stated up to that field (`Canon`), and outright where no
  leaf is without workers.
- Central announces a failed server only if it belonged to a virtual cluster. A replica equals central iff no
  server that failed silently is left under a surviving leaf (`ReplicaOfRunIff`, `SilentFailureDiverges`).
- Virtual clusters have a channel of their own. A spine that lacks a member when it is told of a cluster rejects it
  for good, and so does one that still has another cluster under the ID (`SpineHasCentralsClustersIff`,
  `FailureOvertakesCluster`, `ReusedClusterIsRejected`).
- The push of a cluster stops at the first leaf that refuses it (`PushReachesIff`, `PulledLeafBlocksTheRest`), and so does
  its removal (`RemovalReachesIff`).
- The bus of a spine looks a new node up when it handles the message about it. It dereferences nil iff the node
  failed with its arrival queued (`SpineTables.CrashIff`); the bus of a leaf does the same (`LeafReports.CrashIff`).
- The encoder compares with a strict `>`, so a server with exactly one worker loses it on the wire
  (`RoundTripIff`, `SingleWorkerIsLost`). A comment in the decoder says that a server without workers has both ends 0; the
  code stores 65535 as its last worker ID, and the model follows the code.
- When only the last servers of a leaf fail, nothing is reported and the worker count of the switch goes
  stale (`CountIsLiveIff`, `NobodyMovesIff`), by the workers lost since the last update (`CountOverRuns`).
- The table loops over worker IDs do not end for a last ID of 65535 (`LoopEndsIff`), which is the last ID of a worker-less
  first server (`LoopsOfLeafEndIff`, `WorkerlessFirstServerLoops`).
- Upstream rows are keyed by the leaf's index and worker rows by its ID; they collide where the two are equal and a spine
  or client has the destination ID of a worker (`InitRightIff`, `UpstreamTakesWorkersRow`).
- An update of the switch rows that is handled late may give a row back to a server that is gone (`LateRecordIff`, and
  over runs with queued reports `RightAtQuiescenceIff`).
- The health manager removes by ID (`NewcomerIsRemoved`, `RemovedIsMarkedIff`).
- A controller fetches its index from central, which may be ahead of the spine, and an index update is lost on a
  controller that does not serve yet (`StoredIffLevel`, `UpdateLostAtStart`, `FetchAheadOfSpine`).

## Model

| member | source | states |
|---|---|---|
| `WorkerRanges.TiledMeans` | core/model/topology.go:482-493 | "tiled" means for every server: First is the sum of the counts before it, Last is First+count-1, both modulo 2^16, zero-worker servers included; both directions |
| `WorkerRanges.ContentsOfLay` | core/model/topology.go:147-188 | laying servers out gives tiled ranges and conserves every worker count |
| `WorkerRanges.ExactlyOneOwner` | core/model/topology.go:482-493 | below 2^16 workers: a worker ID has an owner iff it is below the total, and never two owners (no gap, no overlap) |
| `WorkerRanges.SumIsTotal` | core/model/topology.go:484-487 | the running uint16 worker ID is the exact worker total modulo 2^16 |
| `WorkerRanges.DropServersTiles` | core/model/topology.go:482-504 | a removal re-tiles the survivors, in order, with every surviving count conserved |
| `WorkerRanges.DropServersCompose` | core/model/topology.go:471-513 | removing one set of servers and then another leaves the same leaf as removing both at once |
| `WorkerRanges.AppendServerTilesIff` | core/model/topology.go:455-465 | adding a server keeps the leaf tiled iff its workers do not number 1 modulo 2^16 (a stored end of 0 is read as "empty") |
| `WorkerRanges.SecondServerOverlaps` | core/model/topology.go:455-465 | the input on which it fails: the second server of a leaf with one worker is given that worker's ID |
| `WorkerRanges.AppendAtOneUntiles` | core/model/topology.go:455-465 | and where it fails the servers themselves overlap, not only the stored end |
| `WorkerRanges.EmptyEncodingsAgree` | core/model/topology.go:455-461 | 0 and 65535 as the end of an empty leaf lead to the same next range |
| `WorkerRanges.SumIsNotOne` | core/model/topology.go:455-461 | with no one-worker server and fewer than 2^16 workers the bad case of AppendServerTilesIff cannot arise |
| `WorkerRanges.LaidAround` | core/model/topology.go:482-504 | handing out IDs while passing over one server is laying out the list without it |
| `TopologyTree.Topology.AddServerToLeaf` | core/model/topology.go:432-467 | tree and maps stay in agreement; exact error cases; below every spine the leaf gets the server right after its last worker, nothing else changes |
| `TopologyTree.Topology.AddLeafToSpine` | core/model/topology.go:382-430 | tree and maps stay in agreement; exact error cases; a leaf with a free ID is refused for its address iff some child of the spine has both its addresses, so that no two children ever do; the new leaf is last and indexed by its position |
| `TopologyTree.Topology.RemoveServer` | core/model/topology.go:471-513 | tree and maps stay in agreement; the server is gone, its leaf is re-tiled, the returned list is exactly the children behind it |
| `TopologyTree.Topology.Renumber` | core/model/topology.go:482-495 | the loop of RemoveServer: running worker IDs with the removed child passed over, the children behind it collected |
| `TopologyTree.Topology.DropChild` | core/model/topology.go:479-508 | renumbering and splicing one leaf is dropping the server from its record |
| `TopologyTree.Topology.RemoveAllServers` | core/model/topology.go:527-532 | the unbounded loop of RemoveLeaf terminates: each call removes a child because the child is in Servers with this leaf as parent |
| `TopologyTree.Topology.ShiftDown` | core/model/topology.go:538-550 | the index loop of RemoveLeaf: later siblings move down by one and are collected |
| `TopologyTree.Topology.RemoveLeaf` | core/model/topology.go:517-553 | tree and maps stay in agreement; exactly the leaf and its servers are gone; the returned siblings are exactly those whose index changed; the index is the leaf's position |
| `TopologyTree.LinkedAttach` | core/model/topology.go:418-427 | appending a child and storing it keeps "children are exactly the map entries, each under one parent" |
| `TopologyTree.LinkedDetach` | core/model/topology.go:507-510 | splicing out a child and deleting its entry keeps the same |
| `TopologyTree.Topology.LeafRecsDiffer` | core/model/topology.go:395-402 | no two leaves below a spine have the same ID |
| `TopologyTree.Topology.ServersOfLeaf` | core/model/topology.go:474-480 | a search below a leaf finds an ID iff the ID map holds a server with that leaf as parent |
| `Admission.LeafAcceptedIff` | core/model/topology.go:382-430 | a leaf is accepted iff no leaf has its ID and none has both its addresses; it comes last |
| `Admission.ServerAcceptedIff` | core/model/topology.go:432-467 | a server is refused iff its leaf is not there or its ID is below the spine already; otherwise it comes last below its leaf and no other leaf changes |
| `Admission.RunKeepsAddresses` | core/model/topology.go:403-409 | over any messages in any order, IDs used again or not, no two leaves have the same two addresses |
| `Admission.CentralKeepsAddresses` | core/net/topologyServer_central.go:70-87 | the same at central over any requests |
| `Admission.RunKeepsUnique` | core/model/topology.go:382-553 | over any messages in any order no two leaves and no two servers have the same ID, and leaves are at their indexes |
| `SpineContents.ContentsDetermineSpine` | core/model/topology.go:382-553 | two well-formed spines are equal up to the end of worker-less leaves iff their contents are: indexes and ranges carry no information of their own |
| `SpineContents.AddLeafOk` | core/model/topology.go:382-430 | AddLeaf keeps IDs distinct, indexes equal to positions and ranges tiled, for any number of 16-bit IDs |
| `SpineContents.AppendServerToOk` | core/model/topology.go:432-467 | AddServer keeps the same, and appends to the contents |
| `SpineContents.RemoveServerOk` | core/model/topology.go:471-513 | RemoveServer keeps the same, and drops the server from the contents |
| `SpineContents.RemoveLeafOk` | core/model/topology.go:517-553 | RemoveLeaf keeps the same: indexes are positions again |
| `Replication.RunIsOutcome` | core/net/topologyServer_spine.go:57-141 | with fresh IDs: the contents of a replica after any causal merge of the channels are a function of what each channel carried, and each leaf's index is its position |
| `Replication.TiledIffNotOff` | core/model/topology.go:455-465 | over any messages, from a well-numbered start: a leaf is tiled iff no server has arrived at it while its workers numbered one modulo 2^16 since a server was last removed from it ("off") |
| `Replication.SpineOkIff` | core/model/topology.go:382-553 | so the whole spine is well-numbered iff no leaf is off |
| `Replication.NoSingleWorkers` | core/model/topology.go:455-465 | no leaf is ever off if no server has exactly one worker and no leaf ever gets 2^16 of them |
| `Replication.Confluence` | core/net/rpc_endpoint_central.go:218-249 | replicas that drain the same channels in any relative order agree on tree and indexes |
| `Replication.LeafRangesAgreeIff` | core/net/rpc_endpoint_central.go:218-249 | leaf by leaf: where the leaf of one replica is not off, that of the other one has its ranges iff it is not off either |
| `Replication.RangesAgreeIff` | core/net/rpc_endpoint_central.go:218-249 | if no leaf of the one replica is off, the two agree on all ranges iff no leaf of the other one is off; they are then equal outright if no leaf is without workers |
| `Replication.MergeOrderShowsAtOne` | core/model/topology.go:455-465 | the input on which ranges disagree: a server arrives before or after another failure leaves the leaf with one worker |
| `Replication.ReusedIdDiverges` | core/net/rpc_endpoint_central.go:218-249 | the input on which trees disagree: a server fails and its ID is used again, and the two messages change places |
| `Replication.MergeOrderShowsInEmptyLeaf` | core/model/topology.go:455-464 | why worker-less leaves are excepted: two orders of the same two messages leave 65535 and 0 |
| `Replication.TwoMerges` | core/net/rpc_endpoint_central.go:218-249 | both orders of these examples are causal and have the same channels |
| `CentralLog.CentralIsRunOfDone` | core/net/topologyServer_central.go:70-202 | central's own state is the run of the requests it accepted |
| `CentralLog.CentralIsCausal` | core/net/topologyServer_central.go:70-202 | central's history names only nodes that were there at the start or announced before, whatever the requests |
| `CentralLog.LogChannels` | core/net/topologyServer_central.go:193-200 | all channels but that of failed servers carry every accepted request |
| `CentralLog.ReplicaEqualsCentralIff` | core/net/topologyServer_central.go:193-200 | a replica ends with central's tree and indexes iff no server that failed outside every virtual cluster is left under a surviving leaf |
| `CentralLog.ReplicaRangesIff` | core/net/topologyServer_central.go:193-200 | if no leaf of central is off: a replica ends with central's worker ranges iff it ends with central's tree and none of its own leaves is off |
| `CentralLog.SilentFailureDiverges` | core/net/topologyServer_central.go:193-200 | the input on which it fails: central drops a server outside every cluster, announces nothing, and the replica keeps it |
| `CentralLog.ReplicaFollowsCentral` | core/net/topologyServer_spine.go:57-141 | in particular when each failed server belonged to a cluster |
| `CentralRuns.RunIsServeAll` | core/net/topologyServer_central.go:70-290 | central with its registry is a run of the log: each failure is answered from the registry as it is then, and clusters that do not name the spine are not announced to it |
| `CentralRuns.SilentIff` | core/net/topologyServer_central.go:163-202 | the failed-server channel lacks a failed server iff no registered cluster had it when it failed |
| `CentralRuns.ReplicaOfRunIff` | core/net/topologyServer_central.go:163-202 | a replica ends with central's tree and indexes iff no server that failed while no registered cluster had it is left under a surviving leaf |
| `CentralHandlers.Lookups` | core/net/topologyServer_central.go:70-290 | with one spine, the ID maps, parent pointers and clusters of the objects are those of the state of the run |
| `CentralHandlers.OnFailServer` | core/net/topologyServer_central.go:163-202 | the handler is one step of the run, and answers whether the log grew |
| `CentralHandlers.OnFailLeaf` | core/net/topologyServer_central.go:89-137 | the handler is one step of the run |
| `CentralHandlers.OnAddLeaf` | core/net/topologyServer_central.go:70-87 | the handler is one step of the run |
| `CentralHandlers.OnAddServer` | core/net/topologyServer_central.go:139-161 | the handler is one step of the run |
| `CentralHandlers.OnAddVC` | core/net/topologyServer_central.go:253-271 | the handler is one step of the run, whatever spines the request names; one that names an unknown spine changes nothing |
| `CentralHandlers.OnRemoveVC` | core/net/topologyServer_central.go:273-290 | the handler is one step of the run, and the removal is announced iff the cluster names the spine |
| `VCChannel.Persists` | core/net/topologyServer_spine.go:151-187 | a cluster that the spine accepted and that was not removed is there with the members that are left, as long as there are any |
| `VCChannel.Origin` | core/net/topologyServer_spine.go:151-187 | and every cluster that is there is of that kind |
| `VCChannel.LastWordDecides` | core/net/topologyServer_spine.go:151-187 | where the last message about an ID announces a cluster: the spine has one under that ID iff it accepted that announcement and a member is left, and it has just the members that are left |
| `VCChannel.SpineClustersIff` | core/net/topologyServer_spine.go:151-187 | for a FIFO channel of clusters merged in any causal way with the others, IDs used again or not: a spine ends with the announced clusters iff it accepted each announcement that is the last word about its ID and has members left: it had all members then, and no cluster with the ID any more |
| `VCChannel.FailureOvertakesCluster` | core/net/topologyServer_spine.go:151-169 | the input on which it fails: a member's failure is faster than the cluster, which is then rejected for good |
| `VCChannel.ReusedClusterIsRejected` | core/vcManager.go:143-147 | the input on which it fails for an ID that is used again: the failure that emptied the old cluster is slower than the new one |
| `ReplicatedClusters.LogLeaves` | core/net/topologyServer_central.go:163-202 | a spine that received the log has central's leaves, with just those servers more that failed unannounced |
| `ReplicatedClusters.RegistryIsMirrored` | core/vcManager.go:143-254 | over any run central's indexes stay exact, and a spine that receives the announcements in their order has those of the registry's clusters that name it |
| `ReplicatedClusters.SpineHasCentralsClustersIff` | core/net/topologyServer_spine.go:151-187 | after any causal merge the spine's clusters are those of central's registry that name it iff it accepted each announcement that is the last word about its ID and has members left |
| `VCRegistry.AddVCKeepsExact` | core/vcManager.go:143-165 | AddVC keeps both indexes exact inverses, each cluster listed once |
| `VCRegistry.RemoveVCKeepsExact` | core/vcManager.go:168-188 | RemoveVC keeps both indexes exact inverses |
| `VCRegistry.ServerWalkHolds` | core/vcManager.go:207-225 | while DetachServer walks its list the list stays as it was; the state after any prefix of the walk |
| `VCRegistry.DetachServerVCs` | core/vcManager.go:201-231 | DetachServer handles every cluster of the list and drops exactly those left without servers |
| `VCRegistry.DetachServerKeepsExact` | core/vcManager.go:201-231 | DetachServer keeps the indexes exact and leaves equal to the parents of the remaining servers |
| `VCRegistry.LeafWalkHolds` | core/vcManager.go:238-249 | the same for the walk of DetachLeaf |
| `VCRegistry.DetachLeafVCs` | core/vcManager.go:234-254 | DetachLeaf removes exactly the leaf's servers and drops exactly the clusters left empty |
| `VCRegistry.DetachLeafKeepsExact` | core/vcManager.go:234-254 | DetachLeaf keeps the indexes exact and leaves equal to the parents of the remaining servers |
| `VCRegistry.WithoutIsExact` | core/vcManager.go:85-106 | splicing out the first occurrence removes a listed-once cluster and nothing else |
| `VCLists.VCListMap.AppendToVCList` | core/vcManager.go:73-77 | appending, in place or into a new buffer, extends one list and leaves all others alone |
| `VCLists.VCListMap.RemoveFromVCList` | core/vcManager.go:85-106 | the in-place shift splices one list and leaves the slices of all other keys as they were |
| `VirtualClusters.NewVC` | core/model/vc.go:22-53 | members are resolved in order; the first missing spine, server or parent is reported; leaves are the parents of the servers |
| `VirtualClusters.VirtualCluster.DetachServer` | core/model/vc.go:68-92 | the server is removed; the second answer is whether no other child of its leaf is a member |
| `VirtualClusters.VirtualCluster.DetachLeaf` | core/model/vc.go:98-118 | the leaf and exactly its servers are removed and reported once each |
| `VCManagement.VCManager.AddVC` | core/vcManager.go:143-165 | refines the registry operation on the shared slices and keeps the manager valid |
| `VCManagement.VCManager.RemoveVC` | core/vcManager.go:168-188 | refines the registry operation; lists of other nodes are the same slices |
| `VCManagement.VCManager.WalkServerList` | core/vcManager.go:207-225 | the loop reads the captured slice at each step and still meets each cluster once |
| `VCManagement.VCManager.WalkLeafList` | core/vcManager.go:238-249 | the same for the loop of DetachLeaf |
| `VCManagement.VCManager.DetachServer` | core/vcManager.go:201-231 | refines the registry operation, keeps the manager valid, answers true iff some cluster had the server |
| `VCManagement.VCManager.DetachLeaf` | core/vcManager.go:234-254 | refines the registry operation, keeps the manager valid, always answers true |
| `CentralServer.Server.FailServer` | core/net/topologyServer_central.go:163-202 | no cluster holds a node the topology does not; announced iff some cluster had the server; below every spine the removal |
| `CentralServer.Server.FailLeaf` | core/net/topologyServer_central.go:89-137 | the same for a leaf; every known leaf's failure is announced |
| `CentralServer.Server.AddLeaf` | core/net/topologyServer_central.go:70-87 | the registry survives; accepted iff the topology accepts |
| `CentralServer.Server.AddServer` | core/net/topologyServer_central.go:139-161 | the registry survives; accepted iff the topology accepts |
| `CentralServer.Server.AddVC` | core/net/topologyServer_central.go:253-271 | accepted iff the ID is free and all members exist; the registry gets the cluster with its leaves |
| `CentralServer.Server.RemoveVC` | core/net/topologyServer_central.go:273-290 | the registry loses the cluster |
| `CentralServer.LookupsDecideAcceptance` | core/net/topologyServer_central.go:70-202 | with one spine, the ID-map lookups decide what a search of the tree decides |
| `SpineTables.WriteRowsAgree` | ctrl_mgr/cp.go:947-981 | after the loop of OnLeafChange index-to-leaf and leaf-to-index tables are mutually inverse on all children |
| `SpineTables.InitRowsAgree` | ctrl_mgr/cp.go:813-885 | after Init they are too, and every child has its own port as forwarding row |
| `SpineTables.StepKeepsInv` | ctrl_mgr/spineBus.go:83-145 | every topology change and every bus handler, in any order, keeps each leaf in the tables or about to be put there; no handler meets a missing node unless one failed with its arrival queued |
| `SpineTables.RunKeepsInv` | ctrl_mgr/spineBus.go:83-145 | the same over whole runs |
| `SpineTables.TablesAtQuiescence` | ctrl_mgr/spineBus.go:83-145 | when all queues are empty: the two tables inverse on the leaves below num_leafs (rows of failed leaves stay in the leaf-to-index table), each leaf with servers covered and forwarded to its own port, leaves past num_leafs empty and pending |
| `SpineTables.CrashIff` | ctrl_mgr/spineBus.go:105-142 | if no ID is used again while the message about its last arrival is queued, and every arrival is handled before the run ends: the run dereferences a missing node iff some leaf or server failed, on its own or with its leaf, while its arrival was queued |
| `SpineTables.TablesUnlessCrash` | ctrl_mgr/spineBus.go:83-145 | so the tables are as TablesAtQuiescence says after every run that does not crash |
| `SpineTables.HandlerOfFailedLeafCrashes` | ctrl_mgr/spineBus.go:105-122 | the crash of the new-leaf handler: three events on an empty spine |
| `SpineTables.HandlerOfFailedServerCrashes` | ctrl_mgr/spineBus.go:133-134 | the crash of the new-server handler: four events on an empty spine |
| `SpineBus.SpineCP.Init` | ctrl_mgr/cp.go:800-915 | the table writer writes what the specification says |
| `SpineBus.SpineCP.OnLeafChange` | ctrl_mgr/cp.go:936-997 | the table writer writes what the specification says |
| `SpineBus.SpineBus.OnNewLeaf` | ctrl_mgr/spineBus.go:105-122 | refines the handler of the transition system; crashes iff the leaf is gone; a leaf without children waits and the tables stay, any other one does not wait |
| `SpineBus.SpineBus.OnNewServer` | ctrl_mgr/spineBus.go:123-142 | refines the handler of the transition system; crashes iff the server is gone; its leaf waits no more; the tables stay unless it waited |
| `SpineBus.SpineBus.OnFailedLeaf` | ctrl_mgr/spineBus.go:87-97 | refines the handler of the transition system |
| `SpineHistory.OnlyUpdatesWrite` | ctrl_mgr/spineBus.go:83-145 | the tables change only when a leaf failure is handled, a new leaf that has a server at that moment, or a server of a leaf that waits |
| `SpineHistory.UpdatesWriteAll` | ctrl_mgr/cp.go:936-997 | and then they number all the leaves there are, forward to the leaf that came in, and keep every other forwarding row |
| `SpineHistory.SwitchOfRun` | ctrl_mgr/spineBus.go:105-142 | over any run that does not crash: a leaf waits iff it was handled without servers and no server of it has been handled since; a message about a new node is under way iff it was sent and not handled since |
| `SpineHistory.FailuresUnderWay` | ctrl_mgr/spineBus.go:87-97 | every message about a failed leaf is handled once or is under way |
| `SpineHistory.TablesOfLastUpdate` | ctrl_mgr/spineBus.go:83-145 | over any run that does not crash the tables are those of the leaves there were at the last update |
| `SpineHistory.EmptyLeavesWait` | ctrl_mgr/spineBus.go:113-122 | without servers and failures the tables stay as Init wrote them, and just the leaves that were handled wait |
| `LeafTables.KeyInjective` | ctrl_mgr/cp.go:88-112 | distinct worker IDs of a leaf never share a row, wrap-around included |
| `LeafTables.WriteServersAt` | ctrl_mgr/cp.go:270-300 | a worker's row after an update: its owner's if the owner was reported, otherwise unchanged |
| `LeafTables.UnmovedStays` | core/model/topology.go:482-495 | a survivor with no failed server before it keeps place and range |
| `LeafTables.LoopEndsIff` | ctrl_mgr/cp.go:87-121 | the uint16 loop from first to last worker ID ends iff the last ID is not 65535, and then after the number of rounds that the model takes |
| `LeafTables.LoopsOfLeafEndIff` | ctrl_mgr/cp.go:86-122 | below 2^16 workers: all loops of Init end iff the leaf is empty or its first server has a worker |
| `LeafTables.WorkerlessFirstServerLoops` | ctrl_mgr/cp.go:278 | the input on which it does not end: a server without workers is the first of its leaf |
| `LeafTables.InitIsCorrectIff` | ctrl_mgr/cp.go:83-200 | after Init every live worker's row is right iff no upstream row overwrites one with something else |
| `LeafTables.AddKeepsInv` | ctrl_mgr/leafBus.go:109-116 | adding a server and writing only its rows leaves every live row right |
| `LeafTables.AddIsRightIff` | ctrl_mgr/leafBus.go:109-116 | exactly if the leaf does not have one worker in all |
| `LeafTables.OneWorkerLosesItsRow` | core/model/topology.go:455-465 | the input on which it fails: the first worker of the new server takes the row of the leaf's one worker |
| `LeafTables.FailKeepsInv` | ctrl_mgr/leafBus.go:155-167 | a failure or a batch, writing only the reported servers in any order, leaves every live row right |
| `LeafTables.LateRecordIff` | ctrl_mgr/leafBus.go:155-167 | a message that is handled late, about a server that may be gone: the rows stay right iff it gives no live worker another server's row |
| `LeafTables.LateRecordTakesRows` | ctrl_mgr/leafBus.go:155-167 | the input on which it fails: the server had the first worker IDs before another one got them |
| `LeafReports.RightAtQuiescenceIff` | ctrl_mgr/leafBus.go:109-167 | servers come and go, and reports queue up and are handled in any order: once all are handled, every live worker's row is right iff none was last written for a server that was gone by then and has another row |
| `LeafReports.InTimeIsRight` | ctrl_mgr/leafBus.go:109-167 | in particular if no report is handled that names a server that has gone |
| `LeafReports.CrashIff` | ctrl_mgr/leafBus.go:109-116 | and once all are handled, the handler of a new server has dereferenced a missing node iff some server failed while the message about its arrival was queued |
| `LeafReports.ContentsAfter` | ctrl_mgr/leafBus.go:109-167 | a new server comes last, and a failure or batch leaves the other servers, in order |
| `LeafReports.GoneOfRun` | core/leafHealthManager.go:45-53 | the nodes of removed servers are those of the servers that failed, each with the range it had when its turn in its batch came |
| `LeafReports.JoiningIff` | ctrl_mgr/leafBus.go:109-116 | the message about a new server is under way from when it joins to when it is handled |
| `LeafReports.PendingIs` | ctrl_mgr/leafBus.go:136-155 | each failure reports each survivor behind it once, and each report is handled once or is under way |
| `LeafReports.HandledIsWritten` | ctrl_mgr/cp.go:270-300 | handling a report writes the rows of its node, as it is now or as it went, and no others |
| `LeafTables.RunKeepsInv` | ctrl_mgr/cp.go:237-300 | over any run of additions, failures and batches every live row is right |
| `LeafTables.IncrementalEqualsRebuild` | ctrl_mgr/cp.go:237-300 | over any run: the row of every worker ID below the total is that of its one owner, and a fresh Init would write the same iff no different upstream row has its key |
| `LeafTables.NobodyMovesIff` | core/model/topology.go:482-495 | no survivor is reported iff the failed servers are the end of the list |
| `LeafTables.CountIsLiveIff` | core/leafHealthManager.go:58-60 | a failure leaves the worker count right iff it takes no workers or moves a survivor; every addition leaves it right |
| `LeafTables.LastServerIsStillCounted` | core/leafHealthManager.go:58-60 | the input on which it fails: the last server of the list |
| `LeafTables.CountOverRuns` | ctrl_mgr/cp.go:237-300 | over any run the count exceeds the live total by exactly the workers lost since the last update |
| `LeafTables.InitCountIsLive` | ctrl_mgr/cp.go:69-86 | Init reports the exact number of workers there are |
| `LeafTables.CountFromInit` | ctrl_mgr/cp.go:181-191 | so from Init on: the reported count is the live total and what was lost since the last update |
| `LeafTables.ContentsAfter` | ctrl_mgr/leafBus.go:109-167 | a new server comes last, and a failure or batch leaves the other servers, in order |
| `LeafTables.ServersOfRun` | ctrl_mgr/leafBus.go:109-167 | after any run the leaf has just those servers that it had or got and that have not failed since |
| `LeafBus.InitRightIff` | ctrl_mgr/cp.go:149-162 | with the upstream rows of the spines and clients: Init is right iff the leaf's index is not its ID or no upstream ID is the destination ID of a live worker, except of one whose server has the upstream port and address |
| `LeafBus.UpstreamTakesWorkersRow` | ctrl_mgr/cp.go:149-162 | the input on which it fails: leaf 6 with index 6 and the upstream ID 100, which is its worker 4 |
| `LeafBus.LeafCP.WriteWorkers` | ctrl_mgr/cp.go:87-121 | the loop from first to last worker ID writes the rows of the server, for a last ID for which it ends (LoopEndsIff) |
| `LeafBus.LeafCP.Init` | ctrl_mgr/cp.go:83-200 | the table writer writes what the specification says, upstream rows last, and reports the sum of the children's workers modulo 2^16 |
| `LeafBus.LeafCP.OnServerChange` | ctrl_mgr/cp.go:237-300 | the table writer writes what the specification says, and reports the sum of the children's workers modulo 2^16 |
| `FailedBatch.BatchOutcome` | core/leafHealthManager.go:41-61 | any ordering of a batch of children: the others stay in order, re-tiled; reported are exactly the survivors with a failed server before them |
| `FailedBatch.BatchIsOrderIndependent` | core/leafHealthManager.go:41-61 | so the order of the batch does not matter |
| `FailedBatch.BeforeKept` | core/model/topology.go:482-495 | removals keep the relative order of the survivors |
| `HealthManager.LeafHealthManager.OnNodePingRecv` | core/leafHealthManager.go:64-77 | marks exactly the pinging server, and nothing if it is not in the topology |
| `HealthManager.LeafHealthManager.Mark` | core/leafHealthManager.go:90-108 | a scan, which reads the clock for each server, marks exactly the healthy and ready servers whose last ping is at least the timeout old |
| `HealthManager.LeafHealthManager.ProcessFailedNodes` | core/leafHealthManager.go:41-61 | the loop over the failed servers computes the batch, on the tree and in the map of updated servers |
| `HealthManager.LeafHealthManager.Scan` | core/leafHealthManager.go:90-108 | the scan is a step of the run, and marks what the run marks |
| `HealthManager.LeafHealthManager.Reap` | core/leafHealthManager.go:41-61 | the removal is a step of the run |
| `HealthManager.LeafHealthManager.Join` | core/net/topologyServer_leaf.go:67-88 | the addition of a server is a step of the run: a new node that has not pinged |
| `HealthManager.LeafHealthManager.Leave` | core/net/topologyServer_leaf.go:90-116 | the failure of a server by request is a step of the run |
| `HealthRuns.OnlySilentServersAreRemoved` | core/leafHealthManager.go:64-108 | over any run: under a removed ID a server had pinged, and was there without another ping up to a scan at least the timeout later |
| `HealthRuns.NewcomerIsRemoved` | core/leafHealthManager.go:46-52 | but the removal is by ID: a server that took the ID over since the scan is removed, without any ping |
| `HealthRuns.StaysIff` | core/leafHealthManager.go:46-52 | a server that is there at the end of any run was there all the time iff it was there at the start and did not join while it was absent |
| `HealthRuns.RemovedIsMarkedIff` | core/leafHealthManager.go:41-108 | whatever happens between a scan and the removal: the server that is removed is the one that was marked, silent for the timeout at the scan and there ever since its last ping, iff no server joined under its ID while that was free |
| `HealthRuns.LatePingsChangeNothing` | core/leafHealthManager.go:65-69 | once a server is gone, deleting its pings up to its next join from any continuation of the run leaves the final state as it is |
| `HealthHistory.LiveIff` | core/leafHealthManager.go:41-108 | over any run: a server is there iff it was at the start, or joined, and has neither left nor been removed since |
| `HealthHistory.ScanMarksIff` | core/leafHealthManager.go:90-108 | a scan marks a server iff it is there since its last ping, that ping is at least the timeout old, and no scan has marked it since the ping |
| `HealthHistory.MarkedIff` | core/leafHealthManager.go:41-108 | the marked IDs are those of the last scan, until they are removed |
| `HealthHistory.RemovedIff` | core/leafHealthManager.go:41-108 | a scan with its removal takes away just the servers of ScanMarksIff |
| `VCReplication.ServeKeepsInv` | core/net/topologyServer_spine.go:124-188 | each request handled at the spine and delivered keeps every leaf controller at the projection of the spine's clusters |
| `VCReplication.LeavesHoldProjections` | core/net/topologyServer_leaf.go:90-154 | over any run: a cluster is registered at a leaf iff the spine has that leaf in vc.Leaves, with exactly the servers below it |
| `VCRequests.ServerFails` | core/net/topologyServer_spine.go:124-141 | a failed server is gone from the spine and its clusters, empty ones dropped, and from its leaf iff it was in a cluster; nothing else changes |
| `VCRequests.LeafFails` | core/net/topologyServer_spine.go:74-99 | a failed leaf is gone with its controller and its servers, and the clusters lose just these |
| `VCRequests.ServerComes` | core/net/topologyServer_spine.go:101-122 | a new server is known to the spine and its leaf; no cluster changes |
| `VCRequests.VCComes` | core/net/topologyServer_spine.go:151-169 | a cluster is created iff its ID is free and the spine has all its servers; the spine has it with these servers, and each leaf above one of them with those below it |
| `VCRequests.VCGoes` | core/net/topologyServer_spine.go:171-188 | a removed cluster is gone everywhere; nothing else changes |
| `VCRequests.ClustersOfRun` | core/net/topologyServer_spine.go:74-188 | over any run: a cluster is at the spine iff a request created it, none removed it since, and a server is left; it has just the servers that have not failed since, alone or with their leaf |
| `VCRequests.ServersOfRun` | core/net/topologyServer_spine.go:74-141 | over any run: a server is known to the spine iff it was there or came below one of its leaves and has not failed since |
| `ControllerHandlers.OnFailServer` | core/net/topologyServer_spine.go:124-141 | the handler is that of one controller in VCReplication, and passes the failure on iff some cluster had the server |
| `ControllerHandlers.OnFailLeaf` | core/net/topologyServer_spine.go:74-99 | the handler is that of one controller in VCReplication |
| `ControllerHandlers.OnAddServer` | core/net/topologyServer_spine.go:101-122 | the handler is that of one controller in VCReplication |
| `ControllerHandlers.OnAddVC` | core/net/topologyServer_leaf.go:122-134 | the handler is that of one controller in VCReplication, accepted iff the ID is free and all named spines and servers exist |
| `ControllerHandlers.OnRemoveVC` | core/net/topologyServer_leaf.go:137-154 | the handler is that of one controller in VCReplication |
| `VCReplication.ProjectHere` | core/vcManager.go:201-231 | DetachServer at the spine and at the owning leaf commute with the projection |
| `VCReplication.ProjectElsewhere` | core/vcManager.go:201-254 | what is detached elsewhere does not matter to a leaf |
| `VCReplication.StartIsOk` | core/net/topologyServer_spine.go:28-47 | controllers start in agreement |
| `VCReplication.BroadcastIsPartition` | core/net/rpc_endpoint_spine.go:369-395 | the per-leaf server lists of a new cluster are non-empty, disjoint and together all its servers |
| `VCReplication.PulledIsProjection` | core/net/topologyServer_central.go:225-251 | the clusters a leaf pulls are, once each, those it would have been pushed |
| `VCBroadcast.Broadcast` | core/net/rpc_endpoint_spine.go:369-395 | the loops of the push compute those lists, for every leaf up to the first one that refuses |
| `VCDelivery.PushReachesIff` | core/net/rpc_endpoint_spine.go:389-392 | after a push every leaf has the cluster iff each leaf without it takes it and so do all leaves before that one |
| `VCDelivery.PulledLeafBlocksTheRest` | core/net/topologyServer_leaf.go:122-134 | the input on which it fails: the first leaf has just pulled the cluster from central and refuses it |
| `VCDelivery.PushedAt` | core/net/rpc_endpoint_spine.go:369-395 | one leaf after a push: it has the cluster with just its part of the servers iff it and all leaves before it take it; its other clusters stay |
| `VCDelivery.RemovalReachesIff` | core/net/topologyServer_leaf.go:137-154 | after a removal no leaf has the cluster iff no leaf without it is told before one that has it |
| `VCDelivery.RemovedAt` | core/net/topologyServer_leaf.go:137-154 | one leaf after a removal: it has lost the cluster iff it and all leaves before it had it; nothing else changes |
| `VCBroadcast.PulledBy` | core/net/topologyServer_central.go:235-249 | the loop of the pull names the same servers, once each, in any map order |
| `IndexPropagation.StoredIffLevel` | core/net/rpc_endpoint_spine.go:220-245 | in every interleaving of additions and failures at central and the spine, starts and deliveries: a controller has stored the position of its leaf at the spine iff the failures it knew of ahead of the spine when it fetched its index are as many as the spine has handled in front of the leaf since (Lead is 0) |
| `IndexHistory.SwitchOfRun` | core/net/rpc_endpoint_leaf.go:107-165 | over any run: a leaf is at central or the spine, its controller has fetched its index, or listens, iff an event brought that about (for listening: it started to serve after its fetch) and none has undone it since |
| `IndexHistory.MovedAreQueued` | core/net/topologyServer_spine.go:83-96 | a failure sends an update to just those leaves whose index it changes, once each |
| `IndexHistory.ListensFromServe` | core/net/rpc_endpoint_leaf.go:107-114 | a controller that fetched its index and then started to serve listens as long as its leaf is there |
| `IndexHistory.ListenerHears` | core/net/topologyServer_leaf.go:52-65 | and every update that is delivered to it then leaves it with the position its leaf has |
| `IndexArrival.LeadIsBounded` | core/net/rpc_endpoint_leaf.go:154-165 | a controller is never ahead by more than central has failed in front of its leaf |
| `IndexArrival.IndexesArrive` | core/net/rpc_endpoint_spine.go:400-407 | so if no update is sent to a controller that has fetched its index but does not serve yet, and no failure overtakes the addition of its leaf, then once all channels are drained the spine has central's leaves and every controller has its position |
| `IndexArrival.UpdateLostAtStart` | core/net/rpc_endpoint_spine.go:220-245 | the input on which it fails: a sibling fails while the controller starts |
| `IndexArrival.FetchAheadOfSpine` | core/net/rpc_endpoint_leaf.go:154-165 | the input on which a controller is ahead of the spine: it fetches from central after central failed a sibling; its index is wrong at first, and right in the end although the update is lost |
| `IndexArrival.OvertakenLeafStays` | core/net/rpc_endpoint_central.go:218-249 | the input on which central and the spine have different indexes for good: a failure overtakes the addition of its leaf |
| `Codec.RoundTripIff` | core/model/topology.go:241-289 | the children of a spine survive encode and decode, with order, indexes and ranges, iff no server has exactly one worker |
| `Codec.SingleWorkerIsLost` | core/model/topology.go:275-278 | the input on which it fails: the worker of a one-worker server is gone after the trip |
| `Codec.LeafRoundTripIff` | core/model/topology.go:271-280 | the same per leaf for any ranges: iff each range is one whose count the strict comparison sends |
| `Codec.SentCountIsCountIff` | core/model/topology.go:275-278 | the sent count is the real one iff the range is empty or ends behind its start |
| `Codec.SecondTripIsExact` | core/model/topology.go:122-200 | a second trip loses nothing more |
| `Codec.DecodedIsTiled` | core/model/topology.go:147-188 | whatever was sent, the rebuilt leaf is tiled |
| `Codec.DecodedEnd` | core/model/topology.go:158-188 | its last worker ID is the number of workers less one modulo 2^16, so 65535 without workers |
| `TopologyCodec.EncodeToTopoInfo` | core/model/topology.go:241-289 | every spine once, its leaves and servers in order |
| `TopologyCodec.EncodeToTopoInfoAtLeaf` | core/model/topology.go:291-352 | exactly the sub-tree of the leaf; nil iff the leaf is unknown |
| `TopologyCodec.BuildLeaf` | core/model/topology.go:158-188 | the nodes of one leaf, linked both ways, with ranges handed out from 0 |
| `TopologyCodec.Decode` | core/model/topology.go:122-200 | for unique IDs the rebuilt tree and maps agree and each spine has exactly the decoded leaves |
| `TopologyCodec.CopyEqualsIff` | core/model/topology.go:122-289 | a copy built from another topology's message equals it, up to spine order and the end of worker-less leaves, iff no server has exactly one worker |
| `TopologyCodec.Bootstrap` | core/net/rpc_endpoint_spine.go:30-58 | GetTopology followed by NewDCNFromTopoInfo yields such a copy; the message is well-formed |
| `TopologyCodec.BootstrapAtLeaf` | core/model/topology.go:291-352 | the message for one leaf, decoded: one spine and below it that leaf, at its index |
| `TopologyCodec.LeafCopyEqualsIff` | core/model/topology.go:122-352 | the leaf that is copied alone equals the original up to the end of a worker-less leaf iff none of its servers has exactly one worker |

## Left out

- gRPC, connection pools, sockets, packet layouts, configuration files, logging, statistics and commands: plumbing around the modelled handlers.
- Deliveries are successful, and each handler is one atomic step: mutexes, goroutine scheduling and data races are not modelled.
- ASIC and port registries: a port is an opaque value that carries its device number; a port or ASIC that is not found ends the process in the source.
- The root node, core nodes and clients of a topology, and the client rows of the spine's forwarding table.
- NewDCNFromConf: the same construction as `NewDCNFromTopoInfo`, from a configuration file.
- IDs and indexes that arrive as 32-bit numbers and are truncated to 16 bits: the model starts from 16-bit values.
- Several spines at once: replication is stated for one spine. Of the spines a cluster names, the runs track whether that one is among them.
- Idle lists, queue-length registers and queue-length units: the data plane also writes them, or they are small constant tables. The two sampling tables of the spine are written alike and appear as one in `SpineTables`.
- The V2 control planes and their best and second-best trackers.
- Replication.RunIsOutcome: asks for node IDs and leaf addresses that were not in use before, because with a re-used ID the merge order decides (`ReusedIdDiverges`); servers with one worker are included.
- Replication.Confluence: asks for node IDs and leaf addresses that were not in use before, for the same reason.
- Replication.NoSingleWorkers: the same.
- Replication.RangesAgreeIff: the same. Where a leaf is off in both replicas, nothing is stated about its ranges.
- CentralLog.ReplicaEqualsCentralIff: asks for node IDs and leaf addresses that were not in use before, as in `Replication.RunIsOutcome`.
- CentralLog.ReplicaRangesIff: the same.
- CentralLog.ReplicaFollowsCentral: the same.
- CentralRuns.SilentIff: the same.
- CentralRuns.ReplicaOfRunIff: the same.
- ReplicatedClusters.LogLeaves: the same.
- ReplicatedClusters.RegistryIsMirrored: the same; cluster IDs may be used again.
- ReplicatedClusters.SpineHasCentralsClustersIff: the same; cluster IDs may be used again.
- VCChannel.SpineClustersIff: the sent messages are those of a run in which each cluster was accepted, which central's are (`RegistryIsMirrored`).
- IndexPropagation.StoredIffLevel: asks that central adds leaves with IDs and addresses that are not in use at the spine or on their way there.
- SpineTables.StepKeepsInv: asks that no node fails while its arrival is queued; `CrashIff` says what happens otherwise.
- SpineTables.CrashIff: an ID is not used again while the message about its last arrival is queued, because the message then finds the new node.
- SpineTables.TablesUnlessCrash: the same.
- LeafTables.AddKeepsInv: asks that the leaf does not have one worker in all; `AddIsRightIff` has the exact statement.
- LeafTables.RunKeepsInv: messages are handled before the next change; `LeafReports` has the runs in which they are not.
- LeafTables.IncrementalEqualsRebuild: the same.
- LeafTables.CountOverRuns: the same.
- LeafReports.RightAtQuiescenceIff: servers have IDs that were not in use before, and as in `LeafTables` no server is added to a leaf with one worker in all and the first server has a worker. What the model does after a crash has no counterpart.
- LeafBus.LeafCP.WriteWorkers: asks for a last worker ID below 65535, because the method could not return otherwise; `LoopEndsIff` and `LoopsOfLeafEndIff` say when that is.
- LeafBus.LeafCP.Init: asks the same of the children.
- LeafBus.LeafCP.OnServerChange: asks the same of the reported servers.
- HealthManager.LeafHealthManager.ProcessFailedNodes: does not include the detachment from virtual clusters in the same loop, because `VCManagement.VCManager.DetachServer` does not touch the topology and is proved on its own, nor the sending of the message.
- HealthManager.LeafHealthManager.Reap: the same.
- CentralServer.Server.FailServer: does not compute the list of spines the message is sent to, because with one spine it is that spine, nor the port and pipe messages of the switch manager.
- CentralServer.Server.FailLeaf: the same.
- VCReplication.StartIsOk: starts without clusters; a controller that starts later pulls those there are (`PulledIsProjection`).
- TopologyCodec.BuildLeaf: asks that a message does not repeat a server ID in a leaf, which no encoder of the repository sends (`EncodedIsUnique`).
- TopologyCodec.Decode: asks that a message does not repeat an ID, for the same reason.
- VCLists.VCListMap.AppendToVCList: the growth of a full buffer is any capacity up to twice the length plus one, because the Go runtime does not fix it.
