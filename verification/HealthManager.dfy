/** The leaf's health manager of core/leafHealthManager.go as an object over the topology. */
module HealthManager {
  import opened Words
  import opened TopologySpec
  import opened WorkerRanges
  import opened TopologyTree
  import opened FailedBatch
  import HealthRuns

  function NodeIds(nodes: seq<Node>): (ids: seq<u16>)
    ensures |ids| == |nodes| && forall i | 0 <= i < |nodes| :: ids[i] == nodes[i].ID
  {
    seq(|nodes|, i requires 0 <= i < |nodes| => nodes[i].ID)
  }

  class LeafHealthManager {
    const leaf: Node
    const topology: Topology
    const healthyNodeTimeOut: int

    constructor (l: Node, t: Topology, timeout: int)
      ensures leaf == l && topology == t && healthyNodeTimeOut == timeout
    {
      leaf, topology, healthyNodeTimeOut := l, t, timeout;
    }

    /** The state of the run that the servers of the leaf are in. The leaf controller's topology holds
        no others. A server that never pinged is not healthy. */
    ghost predicate IsIn(s: HealthRuns.State)
      reads this, topology, topology.Servers.Values
    {
      && s.live == topology.Servers.Keys
      && forall id | id in topology.Servers ::
           var server := topology.Servers[id];
           && (server.Healthy <==> id in s.healthy) && (server.Ready <==> id in s.ready)
           && (id in s.healthy ==> id in s.lastPing)
           && (id in s.lastPing ==> server.LastPingTime == s.lastPing[id])
    }

    ghost function Stepped(s: HealthRuns.State, e: HealthRuns.Event): HealthRuns.State {
      HealthRuns.Step(s, e, healthyNodeTimeOut)
    }

    /** A ping of a server that is not in the topology is ignored. */
    method OnNodePingRecv(serverID: u16, now: int)
      modifies topology.Servers.Values`LastPingTime, topology.Servers.Values`Healthy, topology.Servers.Values`Ready
      ensures forall k | k in topology.Servers ::
                var s := topology.Servers[k];
                if s == Target(serverID) then s.LastPingTime == now && s.Healthy && s.Ready
                else s.LastPingTime == old(s.LastPingTime) && s.Healthy == old(s.Healthy) && s.Ready == old(s.Ready)
      ensures old(topology.Valid()) ==>
                forall s | old(IsIn(s)) :: IsIn(Stepped(s, HealthRuns.Ping(serverID, now)))
    {
      if serverID !in topology.Servers {
        return;
      }
      var server := topology.Servers[serverID];
      server.LastPingTime := now;
      server.Healthy := true;
      server.Ready := true;
    }

    ghost function Target(serverID: u16): Node?
      reads topology
    {
      if serverID in topology.Servers then topology.Servers[serverID] else null
    }

    ghost predicate TimedOut(s: Node, now: int)
      reads s
    {
      now - s.LastPingTime >= healthyNodeTimeOut && s.Healthy && s.Ready
    }

    /** A reading of the clock for each of the leaf's servers. */
    ghost predicate Reads(clock: map<u16, int>)
      reads leaf
    {
      forall c | c in leaf.Children :: c.ID in clock
    }

    /** The marking loop of a scan: exactly the servers that timed out, by the clock as it is read for
        each of them, are marked. */
    method Mark(clock: map<u16, int>) returns (failedServers: seq<Node>)
      requires Reads(clock)
      requires forall i, j | 0 <= i < j < |leaf.Children| :: leaf.Children[i] != leaf.Children[j]
      modifies leaf.Children`Healthy, leaf.Children`Ready
      ensures forall s :: s in failedServers <==> s in leaf.Children && old(TimedOut(s, clock[s.ID]))
      ensures forall i, j | 0 <= i < j < |failedServers| :: failedServers[i] != failedServers[j]
      ensures forall s | s in leaf.Children ::
                && s.Healthy == (old(s.Healthy) && s !in failedServers)
                && s.Ready == (old(s.Ready) && s !in failedServers)
    {
      failedServers := [];
      for i := 0 to |leaf.Children|
        invariant forall s :: s in failedServers <==> s in leaf.Children[..i] && old(TimedOut(s, clock[s.ID]))
        invariant forall j, k | 0 <= j < k < |failedServers| :: failedServers[j] != failedServers[k]
        invariant forall s | s in leaf.Children ::
                    && s.Healthy == (old(s.Healthy) && s !in failedServers)
                    && s.Ready == (old(s.Ready) && s !in failedServers)
      {
        var server := leaf.Children[i];
        assert server !in leaf.Children[..i];
        var elapsedTime := clock[server.ID] - server.LastPingTime;
        if elapsedTime >= healthyNodeTimeOut {
          if server.Healthy && server.Ready {
            failedServers := failedServers + [server];
            server.Healthy := false;
            server.Ready := false;
          }
        }
      }
    }

    /** The leaf controller's topology has the servers of this leaf, once each, and no others. */
    ghost predicate OnlyThisLeaf()
      reads topology, topology.Servers.Values, leaf
    {
      && Keyed(topology.Servers, ServerNode) && topology.Servers.Values == (set c | c in leaf.Children)
      && forall i, j | 0 <= i < j < |leaf.Children| :: leaf.Children[i] != leaf.Children[j]
    }

    /** Who has timed out, by object and by ID. */
    lemma TimedOutAre(s: HealthRuns.State, clock: map<u16, int>)
      requires OnlyThisLeaf() && IsIn(s) && Reads(clock)
      ensures forall id | id in topology.Servers ::
                && topology.Servers[id] in leaf.Children
                && (TimedOut(topology.Servers[id], clock[id]) <==> id in Stepped(s, HealthRuns.Scan(clock)).failed)
    {
      forall id | id in topology.Servers ensures topology.Servers[id] in leaf.Children {
        assert topology.Servers[id] in topology.Servers.Values;
      }
    }

    lemma IdsAre(nodes: seq<Node>, ids: set<u16>)
      requires OnlyThisLeaf() && ids <= topology.Servers.Keys && forall n | n in nodes :: n in leaf.Children
      requires forall id | id in topology.Servers :: topology.Servers[id] in nodes <==> id in ids
      ensures ToSet(NodeIds(nodes)) == ids
    {
      forall i | 0 <= i < |nodes| ensures nodes[i].ID in ids {
        assert nodes[i] in topology.Servers.Values;
      }
      forall id | id in ids ensures id in ToSet(NodeIds(nodes)) {
        var i :| 0 <= i < |nodes| && nodes[i] == topology.Servers[id];
        assert NodeIds(nodes)[i] == id;
      }
    }

    /** The scan of a run. */
    method Scan(clock: map<u16, int>, ghost s: HealthRuns.State) returns (failedServers: seq<Node>)
      requires OnlyThisLeaf() && IsIn(s) && Reads(clock)
      modifies leaf.Children`Healthy, leaf.Children`Ready
      ensures IsIn(Stepped(s, HealthRuns.Scan(clock)))
      ensures ToSet(NodeIds(failedServers)) == Stepped(s, HealthRuns.Scan(clock)).failed
    {
      TimedOutAre(s, clock);
      failedServers := Mark(clock);
      IdsAre(failedServers, Stepped(s, HealthRuns.Scan(clock)).failed);
    }

    /** Removes the failed servers one after the other and reports, for each leaf of servers behind
        a removed one, those that are still there. */
    method ProcessFailedNodes(nodes: seq<Node>) returns (updated: map<u16, Node>)
      requires topology.Valid() && Holds(topology.Leaves, leaf)
      requires forall s | s in nodes :: s.ID in topology.Servers ==> topology.Servers[s.ID].Parent == leaf
      modifies topology`Servers
      modifies topology.Leaves.Values`Children, topology.Leaves.Values`FirstWorkerID
      modifies topology.Leaves.Values`LastWorkerID
      modifies topology.Servers.Values`FirstWorkerID, topology.Servers.Values`LastWorkerID
      ensures topology.Valid() && topology.Servers == old(topology.Servers) - ToSet(NodeIds(nodes))
      ensures LeafRecOf(leaf) == FailAll(old(LeafRecOf(leaf)), NodeIds(nodes)).leaf
      ensures updated.Keys == FailAll(old(LeafRecOf(leaf)), NodeIds(nodes)).updated
    {
      hide Linked, Keyed, LeafRecs, ServerRecs, LeafRecOf, ParentOk, ChildOk, ChildrenHeld, DropServers, Behind;
      hide Topology.Valid, NodeIds, FailOne;
      updated := map[];
      ghost var was, ids := LeafRecOf(leaf), NodeIds(nodes);
      for i := 0 to |nodes|
        invariant topology.Valid() && Holds(topology.Leaves, leaf) && topology.Leaves == old(topology.Leaves)
        invariant topology.Servers == old(topology.Servers) - ToSet(ids[..i])
        invariant Batch(LeafRecOf(leaf), updated.Keys) == FailAll(was, ids[..i])
      {
        assert ids[..i+1][..i] == ids[..i];
        ToSetStep(ids, i);
        updated := FailNext(nodes[i].ID, updated);
      }
      assert ids[..|ids|] == ids;
    }

    /** One round: forget the server as an updated one, remove it, note those behind it. */
    method FailNext(id: u16, updated: map<u16, Node>) returns (now: map<u16, Node>)
      requires topology.Valid() && Holds(topology.Leaves, leaf)
      requires id in topology.Servers ==> topology.Servers[id].Parent == leaf
      modifies topology`Servers
      modifies topology.Leaves.Values`Children, topology.Leaves.Values`FirstWorkerID
      modifies topology.Leaves.Values`LastWorkerID
      modifies topology.Servers.Values`FirstWorkerID, topology.Servers.Values`LastWorkerID
      ensures topology.Valid() && topology.Servers == old(topology.Servers) - {id}
      ensures Batch(LeafRecOf(leaf), now.Keys) == FailOne(Batch(old(LeafRecOf(leaf)), updated.Keys), id)
    {
      hide Topology.Valid, LeafRecOf, Holds;
      var us := FailOneNode(id);
      now := Note(updated - {id}, us);
    }

    /** The removal of a run. */
    method Reap(nodes: seq<Node>, ghost s: HealthRuns.State) returns (updated: map<u16, Node>)
      requires topology.Valid() && Holds(topology.Leaves, leaf)
      requires forall n | n in nodes :: n.ID in topology.Servers ==> topology.Servers[n.ID].Parent == leaf
      requires IsIn(s) && ToSet(NodeIds(nodes)) == s.failed
      modifies topology`Servers
      modifies topology.Leaves.Values`Children, topology.Leaves.Values`FirstWorkerID
      modifies topology.Leaves.Values`LastWorkerID
      modifies topology.Servers.Values`FirstWorkerID, topology.Servers.Values`LastWorkerID
      ensures topology.Valid() && IsIn(Stepped(s, HealthRuns.Reap))
      ensures LeafRecOf(leaf) == FailAll(old(LeafRecOf(leaf)), NodeIds(nodes)).leaf
      ensures updated.Keys == FailAll(old(LeafRecOf(leaf)), NodeIds(nodes)).updated
    {
      hide Topology.Valid, LeafRecOf, NodeIds, ToSet, FailAll, Holds;
      updated := ProcessFailedNodes(nodes);
    }

    /** A server that joins is a new node that has not pinged yet. */
    method Join(info: ServerInfo, leafID: u16, ghost s: HealthRuns.State) returns (accepted: bool)
      requires topology.Valid() && leafID in topology.Leaves && IsIn(s)
      modifies topology`Servers, topology.AtMostLeaf(leafID)`Children
      modifies topology.AtMostLeaf(leafID)`FirstWorkerID, topology.AtMostLeaf(leafID)`LastWorkerID
      ensures topology.Valid() && IsIn(Stepped(s, HealthRuns.Join(info.id)))
      ensures accepted <==> info.id !in s.live
    {
      hide Topology.Valid;
      var r := topology.AddServerToLeaf(info, leafID);
      accepted := r.Added?;
    }

    /** A server that fails by request leaves. */
    method Leave(serverID: u16, ghost s: HealthRuns.State) returns (removed: bool)
      requires topology.Valid() && IsIn(s)
      modifies topology`Servers
      modifies topology.Leaves.Values`Children, topology.Leaves.Values`FirstWorkerID
      modifies topology.Leaves.Values`LastWorkerID
      modifies topology.Servers.Values`FirstWorkerID, topology.Servers.Values`LastWorkerID
      ensures topology.Valid() && IsIn(Stepped(s, HealthRuns.Leave(serverID)))
      ensures removed <==> serverID in s.live
    {
      hide Topology.Valid;
      var updated;
      ghost var leafID, at;
      removed, updated, leafID, at := topology.RemoveServer(serverID);
    }

    /** Stores the reported servers by ID. */
    static method Note(updated: map<u16, Node>, us: seq<Node>) returns (more: map<u16, Node>)
      ensures more.Keys == updated.Keys + (set s | s in us :: s.ID)
    {
      more := updated;
      for i := 0 to |us|
        invariant more.Keys == updated.Keys + (set s | s in us[..i] :: s.ID)
      {
        more := more[us[i].ID := us[i]];
      }
      assert us[..|us|] == us;
    }

    /** What RemoveServer returns is what is behind the removed server. */
    lemma BehindIs(kids: seq<Node>, id: u16, r: nat)
      requires r < |kids| && forall i | 0 <= i < |kids| :: kids[i].ID == id <==> i == r
      ensures Behind(Contents(ServerRecs(kids)), id) == set s | s in kids[r+1..] :: s.ID
    {
      var cs := Contents(ServerRecs(kids));
      assert forall i | 0 <= i < |cs| :: cs[i].id == kids[i].ID;
      hide Contents, ServerRecs, Behind;
      BehindAt(cs, id, r);
      var behind := set s | s in kids[r+1..] :: s.ID;
      forall j | r < j < |kids| ensures kids[j].ID in behind {
        assert kids[r+1..][j-r-1] == kids[j];
      }
    }

    /** A server of the leaf is removed. */
    method FailKnownNode(id: u16) returns (us: seq<Node>)
      requires topology.Valid() && Holds(topology.Leaves, leaf)
      requires id in topology.Servers && topology.Servers[id].Parent == leaf
      modifies topology`Servers
      modifies topology.Leaves.Values`Children, topology.Leaves.Values`FirstWorkerID
      modifies topology.Leaves.Values`LastWorkerID
      modifies topology.Servers.Values`FirstWorkerID, topology.Servers.Values`LastWorkerID
      ensures topology.Valid() && topology.Servers == old(topology.Servers) - {id}
      ensures LeafRecOf(leaf) == DropServers(old(LeafRecOf(leaf)), {id})
      ensures (set s | s in us :: s.ID) == Behind(Contents(old(LeafRecOf(leaf)).servers), id)
    {
      hide Linked, LeafRecs, ServerRecs, ParentOk, ChildOk, ChildrenHeld, DropServers, Behind, Topology.Valid;
      ghost var l, at := topology.PlaceOfServer(id);
      BehindIs(leaf.Children, id, at);
      var removed;
      ghost var leafID, r;
      removed, us, leafID, r := topology.RemoveServer(id);
    }

    method FailOneNode(id: u16) returns (us: seq<Node>)
      requires topology.Valid() && Holds(topology.Leaves, leaf)
      requires id in topology.Servers ==> topology.Servers[id].Parent == leaf
      modifies topology`Servers
      modifies topology.Leaves.Values`Children, topology.Leaves.Values`FirstWorkerID
      modifies topology.Leaves.Values`LastWorkerID
      modifies topology.Servers.Values`FirstWorkerID, topology.Servers.Values`LastWorkerID
      ensures topology.Valid() && topology.Servers == old(topology.Servers) - {id}
      ensures FailOne(Batch(old(LeafRecOf(leaf)), {}), id) == Batch(LeafRecOf(leaf), set s | s in us :: s.ID)
    {
      hide Linked, Keyed, LeafRecs, ServerRecs, LeafRecOf, ParentOk, ChildOk, ChildrenHeld, DropServers, Behind;
      topology.ServersOfLeaf(leaf, id);
      if id !in topology.Servers {
        return [];
      }
      us := FailKnownNode(id);
    }
  }
}
