/** The request handlers of core/net/topologyServer_central.go on the real objects. Each failure handler
    detaches a node from every virtual cluster before it removes it from the topology, so that no
    registered cluster ever holds a node that is not in the topology maps. */
module CentralServer {
  import opened Words
  import TopologySpec
  import opened TopologyTree
  import opened VCRegistry
  import opened VirtualClusters
  import opened VCLists
  import opened VCManagement

  class Server {
    const topology: Topology
    const vcm: VCManager

    constructor (t: Topology, m: VCManager)
      requires m.topology == t && m.Valid()
      ensures topology == t && vcm == m && Valid()
    {
      topology, vcm := t, m;
    }

    ghost predicate Valid()
      reads vcm, vcm.vcs.Values, topology
      reads topology.Spines.Values, topology.Leaves.Values, topology.Servers.Values
      reads vcm.serverVCs, vcm.serverVCs.Buffers(), vcm.leafVCs, vcm.leafVCs.Buffers()
    {
      vcm.topology == topology && vcm.Valid()
    }

    /** The manager's own objects are as they were. */
    twostate predicate ManagerUntouched()
      reads *
    {
      && vcm.vcs == old(vcm.vcs)
      && (forall c | c in vcm.vcs ::
          vcm.vcs[c].Servers == old(vcm.vcs[c].Servers) && vcm.vcs[c].Leaves == old(vcm.vcs[c].Leaves))
      && vcm.serverVCs.internal == old(vcm.serverVCs.internal) && vcm.leafVCs.internal == old(vcm.leafVCs.internal)
      && (forall b | b in vcm.serverVCs.Buffers() + vcm.leafVCs.Buffers() :: b[..] == old(b[..]))
    }

    /** The registry survives a change of the topology that keeps what the clusters hold. */
    twostate lemma AfterTopologyChange()
      requires vcm.topology == topology && old(vcm.Valid()) && ManagerUntouched()
      requires topology.Valid()
      requires forall c | c in vcm.vcs :: vcm.vcs[c].HeldBy(topology)
      requires Homed(old(vcm.Clusters()), HomeIn(topology))
      ensures vcm.Valid() && vcm.Reg() == old(vcm.Reg())
    {
      assert vcm.Clusters() == old(vcm.Clusters());
      ListsAsBefore(vcm.serverVCs);
      ListsAsBefore(vcm.leafVCs);
    }

    twostate lemma ListsAsBefore(new m: VCListMap)
      requires old(allocated(m)) && old(m.Valid()) && m.internal == old(m.internal)
      requires forall b | b in m.Buffers() :: b in old(m.Buffers()) && b[..] == old(b[..])
      ensures m.Valid() && m.Buffers() == old(m.Buffers()) && m.Ids() == old(m.Ids())
      ensures forall k :: m.At(k) == old(m.At(k))
    {
    }

    /** What is left of the clusters is held by a topology that lost only nodes outside of them. */
    twostate lemma StillHeld(new servers: set<u16>, new leaves: set<u16>)
      requires vcm.topology == topology && old(vcm.Valid()) && ManagerUntouched()
      requires topology.Servers == old(topology.Servers) - servers && topology.Leaves == old(topology.Leaves) - leaves
      requires forall c | c in vcm.vcs :: vcm.vcs[c].Servers.Keys !! servers && vcm.vcs[c].Leaves.Keys !! leaves
      ensures forall c | c in vcm.vcs :: vcm.vcs[c].HeldBy(topology)
    {
      forall c | c in vcm.vcs ensures vcm.vcs[c].HeldBy(topology) {
        assert old(vcm.vcs[c].HeldBy(topology));
        var vc := vcm.vcs[c];
        assert forall k | k in vc.Servers :: k !in servers;
        assert forall k | k in vc.Leaves :: k !in leaves;
      }
    }

    lemma NoMember(gone: set<u16>)
      requires Valid() && Homed(vcm.Clusters(), HomeIn(topology) - gone)
      ensures forall c | c in vcm.vcs :: vcm.vcs[c].Servers.Keys !! gone
    {
      forall c | c in vcm.vcs ensures vcm.vcs[c].Servers.Keys !! gone {
        assert vcm.Clusters()[c] == vcm.vcs[c].AsCluster();
      }
    }

    /** The servers `gone` are no longer in the topology; the others kept their parents. */
    twostate lemma HomeWithout(new gone: set<u16>)
      requires forall k | k in topology.Servers ::
               k in old(topology.Servers) && topology.Servers[k] == old(topology.Servers[k])
      requires forall k | k in topology.Servers :: topology.Servers[k].Parent == old(topology.Servers[k].Parent)
      requires forall k | k in old(topology.Servers) :: k !in topology.Servers <==> k in gone
      ensures topology.Servers == old(topology.Servers) - gone
      ensures HomeIn(topology) == old(HomeIn(topology)) - gone
    {
      assert topology.Servers == old(topology.Servers) - gone;
    }

    /** The manager after a removal that left its objects alone. */
    twostate lemma AfterRemoval(new servers: set<u16>, new leaves: set<u16>)
      requires vcm.topology == topology && old(vcm.Valid()) && ManagerUntouched() && topology.Valid()
      requires forall k | k in topology.Servers ::
                 && k in old(topology.Servers) && topology.Servers[k] == old(topology.Servers[k])
                 && topology.Servers[k].Parent == old(topology.Servers[k].Parent)
      requires topology.Servers == old(topology.Servers) - servers && topology.Leaves == old(topology.Leaves) - leaves
      requires forall c | c in vcm.vcs :: vcm.vcs[c].Servers.Keys !! servers && vcm.vcs[c].Leaves.Keys !! leaves
      requires old(Homed(vcm.Clusters(), HomeIn(topology) - servers))
      ensures vcm.Valid() && vcm.Reg() == old(vcm.Reg())
      ensures HomeIn(topology) == old(HomeIn(topology)) - servers
    {
      hide HomeIn, VCManager.Wf, Homed, Exact, Topology.Valid, VCManager.Clusters, VCManager.Reg;
      HomeWithout(servers);
      StillHeld(servers, leaves);
      AfterTopologyChange();
    }

    /** The removal from the topology. */
    method TakeServerNode(serverID: u16) returns (removed: bool)
      requires topology.Valid()
      modifies topology`Servers
      modifies topology.Leaves.Values`Children, topology.Leaves.Values`FirstWorkerID
      modifies topology.Leaves.Values`LastWorkerID
      modifies topology.Servers.Values`FirstWorkerID, topology.Servers.Values`LastWorkerID
      ensures ManagerUntouched()
      ensures topology.Valid() && topology.Servers == old(topology.Servers) - {serverID}
      ensures removed <==> serverID in old(topology.Servers)
      ensures forall k | k in topology.Servers :: topology.Servers[k].Parent == old(topology.Servers[k].Parent)
      ensures forall p | p in topology.Spines ::
                topology.LeavesOf(p) == TopologySpec.RemoveServer(old(topology.LeavesOf(p)), serverID)
    {
      hide Linked, Keyed, LeafRecs, ServerRecs, LeafRecOf, ParentOk, ChildOk, ChildrenHeld, HomeIn, Children,
        Grandchildren, VCManager.Wf, Homed, Exact, VCListMap.At, VCListMap.Ids, VCListMap.Valid, VCManager.Clusters,
        VCManager.Reg, Apart, VirtualCluster.HeldBy, Topology.Valid, Topology.LeavesOf, TopologySpec.RemoveLeaf,
        TopologySpec.RemoveServer;
      var updated;
      ghost var leafID, r;
      removed, updated, leafID, r := topology.RemoveServer(serverID);
      assert vcm.serverVCs.internal == old(vcm.serverVCs.internal) && vcm.leafVCs.internal == old(vcm.leafVCs.internal);
      assert forall b | b in vcm.serverVCs.Buffers() + vcm.leafVCs.Buffers() :: b[..] == old(b[..]);
      assert ManagerUntouched();
    }

    method RemoveServerNode(serverID: u16) returns (removed: bool)
      requires Valid() && Homed(vcm.Clusters(), HomeIn(topology) - {serverID})
      modifies topology`Servers
      modifies topology.Leaves.Values`Children, topology.Leaves.Values`FirstWorkerID
      modifies topology.Leaves.Values`LastWorkerID
      modifies topology.Servers.Values`FirstWorkerID, topology.Servers.Values`LastWorkerID
      ensures Valid() && vcm.Reg() == old(vcm.Reg()) && vcm.vcs == old(vcm.vcs)
      ensures removed <==> serverID in old(topology.Servers)
      ensures topology.Servers == old(topology.Servers) - {serverID}
      ensures HomeIn(topology) == old(HomeIn(topology)) - {serverID}
      ensures forall p | p in topology.Spines ::
                topology.LeavesOf(p) == TopologySpec.RemoveServer(old(topology.LeavesOf(p)), serverID)
    {
      hide HomeIn, Linked, Keyed, LeafRecs, ServerRecs, LeafRecOf, ParentOk, ChildOk, ChildrenHeld, VCManager.Wf,
        Homed, Exact, Topology.Valid, VCListMap.At, VCListMap.Ids, VCListMap.Valid, VCManager.Clusters,
        VCManager.Reg, Apart, Grandchildren, Topology.LeavesOf, VirtualCluster.HeldBy, TopologySpec.RemoveServer;
      NoMember({serverID});
      removed := TakeServerNode(serverID);
      AfterRemoval({serverID}, {});
    }

    ghost predicate SomeVCHas(serverID: u16)
      reads vcm, vcm.vcs.Values
    {
      exists c :: c in vcm.vcs && serverID in vcm.vcs[c].Servers
    }

    /** `announced` says whether the failure is sent on to the spines. */
    method FailServer(serverID: u16) returns (found: bool, announced: bool)
      requires Valid()
      modifies vcm`vcs, vcm.vcs.Values`Servers, vcm.vcs.Values`Leaves
      modifies vcm.serverVCs, vcm.serverVCs.Buffers(), vcm.leafVCs, vcm.leafVCs.Buffers()
      modifies topology`Servers
      modifies topology.Leaves.Values`Children, topology.Leaves.Values`FirstWorkerID
      modifies topology.Leaves.Values`LastWorkerID
      modifies topology.Servers.Values`FirstWorkerID, topology.Servers.Values`LastWorkerID
      ensures vcm.Shrinks()
      ensures Valid()
      ensures found <==> serverID in old(topology.Servers)
      ensures topology.Servers == old(topology.Servers) - {serverID}
      ensures HomeIn(topology) == if found then old(HomeIn(topology)) - {serverID} else old(HomeIn(topology))
      ensures announced <==> found && old(SomeVCHas(serverID))
      ensures vcm.Reg() ==
              if found then DetachServer(old(vcm.Reg()), serverID, old(HomeIn(topology))) else old(vcm.Reg())
      ensures forall p | p in topology.Spines ::
                topology.LeavesOf(p) ==
                if found then TopologySpec.RemoveServer(old(topology.LeavesOf(p)), serverID)
                  else old(topology.LeavesOf(p))
    {
      hide Topology.Valid, HomeIn, Linked, Keyed, LeafRecs, ServerRecs, LeafRecOf, ParentOk, ChildOk, ChildrenHeld,
        VCManager.Wf, Exact, Homed, VCListMap.At, VCListMap.Ids, VCListMap.Valid, TopologySpec.RemoveServer,
        DetachServer, VCManager.Reg, VCManager.Clusters, Topology.LeavesOf, Grandchildren, Server.Valid,
        Server.SomeVCHas;
      if serverID !in topology.Servers {
        return false, false;
      }
      var detached := DetachMember(serverID);
      var removed := RemoveServerNode(serverID);
      return true, removed && detached;
    }

    /** DetachServer of the manager, which leaves the topology alone. */
    method DetachMember(serverID: u16) returns (detached: bool)
      requires Valid()
      modifies vcm`vcs, vcm.vcs.Values`Servers, vcm.vcs.Values`Leaves
      modifies vcm.serverVCs, vcm.serverVCs.Buffers(), vcm.leafVCs, vcm.leafVCs.Buffers()
      ensures vcm.Shrinks()
      ensures Valid() && Homed(vcm.Clusters(), HomeIn(topology) - {serverID})
      ensures detached <==> old(SomeVCHas(serverID))
      ensures HomeIn(topology) == old(HomeIn(topology))
      ensures vcm.Reg() == DetachServer(old(vcm.Reg()), serverID, old(HomeIn(topology)))
      ensures forall p | p in topology.Spines :: topology.LeavesOf(p) == old(topology.LeavesOf(p))
    {
      hide Topology.Valid, HomeIn, Linked, Keyed, LeafRecs, ServerRecs, LeafRecOf, ParentOk, ChildOk, ChildrenHeld,
        VCManager.Wf, Exact, Homed, VCListMap.At, VCListMap.Ids, VCListMap.Valid, VCManager.Clusters, DetachServer,
        VCListMap.Buffers;
      detached := vcm.DetachServer(serverID);
      assert Homed(vcm.Clusters(), HomeIn(topology) - {serverID});
      assert forall p | p in topology.Spines :: topology.LeavesOf(p) == old(topology.LeavesOf(p));
    }

    // ---------- FailLeaf ----------

    /** No cluster uses a leaf none of whose servers it may hold. */
    lemma NoUser(leafID: u16)
      requires Valid() && Homed(vcm.Clusters(), HomeIn(topology) - Children(leafID, HomeIn(topology)))
      ensures forall c | c in vcm.vcs :: vcm.vcs[c].Leaves.Keys !! {leafID}
    {
      forall c | c in vcm.vcs ensures vcm.vcs[c].Leaves.Keys !! {leafID} {
        assert vcm.Clusters()[c] == vcm.vcs[c].AsCluster();
      }
    }

    /** The children of a leaf, by parent pointer and by ID. */
    lemma ParentByID(leafID: u16)
      requires topology.Valid() && leafID in topology.Leaves
      ensures HomeIn(topology).Keys == topology.Servers.Keys
      ensures forall k | k in topology.Servers ::
                k in Children(leafID, HomeIn(topology)) <==> topology.Servers[k].Parent == topology.Leaves[leafID]
    {
      forall k | k in topology.Servers
        ensures k in HomeIn(topology)
        ensures HomeIn(topology)[k] == leafID <==> topology.Servers[k].Parent == topology.Leaves[leafID]
      {
        assert ChildOk(topology.Servers[k], topology.Leaves);
      }
    }

    /** The removal from the topology. */
    method TakeLeafNode(leafID: u16) returns (removedIdx: int)
      requires topology.Valid() && leafID in topology.Leaves
      modifies topology`Leaves, topology`Servers, topology.Spines.Values`Children
      modifies topology.Leaves.Values`Children, topology.Leaves.Values`FirstWorkerID
      modifies topology.Leaves.Values`LastWorkerID, topology.Leaves.Values`Index
      modifies topology.Servers.Values`FirstWorkerID, topology.Servers.Values`LastWorkerID
      ensures topology.Valid() && removedIdx >= 0
      ensures topology.Leaves == old(topology.Leaves) - {leafID}
      ensures topology.Servers == old(topology.Servers) - Children(leafID, old(HomeIn(topology)))
      ensures forall k | k in topology.Servers :: topology.Servers[k].Parent == old(topology.Servers[k].Parent)
      ensures forall p | p in topology.Spines ::
                topology.LeavesOf(p) == TopologySpec.RemoveLeaf(old(topology.LeavesOf(p)), leafID)
    {
      hide Linked, Keyed, LeafRecs, ServerRecs, LeafRecOf, ParentOk, ChildOk, ChildrenHeld, HomeIn, Children,
        Grandchildren, VCManager.Wf, Homed, Exact, VCListMap.At, VCListMap.Ids, VCListMap.Valid, VCManager.Clusters,
        VCManager.Reg, Apart, VirtualCluster.HeldBy, Topology.Valid, Topology.LeavesOf, TopologySpec.RemoveLeaf,
        TopologySpec.RemoveServer;
      ParentByID(leafID);
      ghost var gone := Children(leafID, HomeIn(topology));
      var updated;
      ghost var spineID;
      removedIdx, updated, spineID := topology.RemoveLeaf(leafID);
      assert topology.Servers == old(topology.Servers) - gone;
    }

    /** The manager's objects are not touched by it. */
    method TakeLeafQuietly(leafID: u16) returns (removedIdx: int)
      requires topology.Valid() && leafID in topology.Leaves
      modifies topology`Leaves, topology`Servers, topology.Spines.Values`Children
      modifies topology.Leaves.Values`Children, topology.Leaves.Values`FirstWorkerID
      modifies topology.Leaves.Values`LastWorkerID, topology.Leaves.Values`Index
      modifies topology.Servers.Values`FirstWorkerID, topology.Servers.Values`LastWorkerID
      ensures ManagerUntouched()
      ensures topology.Valid() && removedIdx >= 0
      ensures topology.Leaves == old(topology.Leaves) - {leafID}
      ensures topology.Servers == old(topology.Servers) - Children(leafID, old(HomeIn(topology)))
      ensures forall k | k in topology.Servers :: topology.Servers[k].Parent == old(topology.Servers[k].Parent)
      ensures forall p | p in topology.Spines ::
                topology.LeavesOf(p) == TopologySpec.RemoveLeaf(old(topology.LeavesOf(p)), leafID)
    {
      hide Linked, Keyed, LeafRecs, ServerRecs, LeafRecOf, ParentOk, ChildOk, ChildrenHeld, HomeIn, Children,
        Grandchildren, VCManager.Wf, Homed, Exact, VCListMap.At, VCListMap.Ids, VCListMap.Valid, VCManager.Clusters,
        VCManager.Reg, Apart, VirtualCluster.HeldBy, Topology.Valid, Topology.LeavesOf, TopologySpec.RemoveLeaf,
        TopologySpec.RemoveServer;
      removedIdx := TakeLeafNode(leafID);
      assert vcm.serverVCs.internal == old(vcm.serverVCs.internal) && vcm.leafVCs.internal == old(vcm.leafVCs.internal);
      assert forall b | b in vcm.serverVCs.Buffers() + vcm.leafVCs.Buffers() :: b[..] == old(b[..]);
      assert ManagerUntouched();
    }

    method RemoveLeafNode(leafID: u16) returns (removedIdx: int)
      requires Valid() && leafID in topology.Leaves
      requires Homed(vcm.Clusters(), HomeIn(topology) - Children(leafID, HomeIn(topology)))
      modifies topology`Leaves, topology`Servers, topology.Spines.Values`Children
      modifies topology.Leaves.Values`Children, topology.Leaves.Values`FirstWorkerID
      modifies topology.Leaves.Values`LastWorkerID, topology.Leaves.Values`Index
      modifies topology.Servers.Values`FirstWorkerID, topology.Servers.Values`LastWorkerID
      ensures Valid() && vcm.Reg() == old(vcm.Reg()) && vcm.vcs == old(vcm.vcs)
      ensures removedIdx >= 0
      ensures topology.Leaves == old(topology.Leaves) - {leafID}
      ensures topology.Servers == old(topology.Servers) - Children(leafID, old(HomeIn(topology)))
      ensures HomeIn(topology) == old(HomeIn(topology)) - Children(leafID, old(HomeIn(topology)))
      ensures forall p | p in topology.Spines ::
                topology.LeavesOf(p) == TopologySpec.RemoveLeaf(old(topology.LeavesOf(p)), leafID)
    {
      hide Linked, Keyed, LeafRecs, ServerRecs, LeafRecOf, ParentOk, ChildOk, ChildrenHeld, HomeIn, VCManager.Wf,
        Homed, Exact, Topology.Valid, VCListMap.At, VCListMap.Ids, VCListMap.Valid, TopologySpec.RemoveLeaf,
        VCManager.Clusters, VCManager.Reg, Children, Topology.LeavesOf, VirtualCluster.HeldBy, Grandchildren, Apart,
        VCListMap.Buffers;
      NoMember(Children(leafID, HomeIn(topology)));
      NoUser(leafID);
      ghost var gone := Children(leafID, HomeIn(topology));
      removedIdx := TakeLeafQuietly(leafID);
      AfterRemoval(gone, {leafID});
    }

    method DetachUsers(leafID: u16) returns (detached: bool)
      requires Valid()
      modifies vcm`vcs, vcm.vcs.Values`Servers, vcm.vcs.Values`Leaves
      modifies vcm.serverVCs, vcm.serverVCs.Buffers(), vcm.leafVCs, vcm.leafVCs.Buffers()
      ensures vcm.Shrinks()
      ensures Valid() && Homed(vcm.Clusters(), HomeIn(topology) - Children(leafID, HomeIn(topology)))
      ensures detached
      ensures vcm.Reg() == DetachLeaf(old(vcm.Reg()), leafID, old(HomeIn(topology)))
      ensures HomeIn(topology) == old(HomeIn(topology))
      ensures forall p | p in topology.Spines :: topology.LeavesOf(p) == old(topology.LeavesOf(p))
    {
      hide Topology.Valid, HomeIn, Linked, Keyed, LeafRecs, ServerRecs, LeafRecOf, ParentOk, ChildOk, ChildrenHeld,
        VCManager.Wf, Exact, Homed, VCListMap.At, VCListMap.Ids, VCListMap.Valid, VCManager.Clusters, Grandchildren,
        DetachLeaf;
      detached := vcm.DetachLeaf(leafID);
      assert Homed(vcm.Clusters(), HomeIn(topology) - Children(leafID, HomeIn(topology)));
      assert forall p | p in topology.Spines :: topology.LeavesOf(p) == old(topology.LeavesOf(p));
    }

    /** Every failure of a known leaf is announced. */
    method FailLeaf(leafID: u16) returns (found: bool, announced: bool)
      requires Valid()
      modifies vcm`vcs, vcm.vcs.Values`Servers, vcm.vcs.Values`Leaves
      modifies vcm.serverVCs, vcm.serverVCs.Buffers(), vcm.leafVCs, vcm.leafVCs.Buffers()
      modifies topology`Leaves, topology`Servers, topology.Spines.Values`Children
      modifies topology.Leaves.Values`Children, topology.Leaves.Values`FirstWorkerID
      modifies topology.Leaves.Values`LastWorkerID, topology.Leaves.Values`Index
      modifies topology.Servers.Values`FirstWorkerID, topology.Servers.Values`LastWorkerID
      ensures vcm.Shrinks()
      ensures Valid()
      ensures found <==> leafID in old(topology.Leaves)
      ensures announced <==> found
      ensures topology.Leaves == old(topology.Leaves) - {leafID}
      ensures found ==> topology.Servers == old(topology.Servers) - Children(leafID, old(HomeIn(topology)))
      ensures HomeIn(topology) ==
              if found then old(HomeIn(topology)) - Children(leafID, old(HomeIn(topology))) else old(HomeIn(topology))
      ensures vcm.Reg() == if found then DetachLeaf(old(vcm.Reg()), leafID, old(HomeIn(topology))) else old(vcm.Reg())
      ensures forall p | p in topology.Spines ::
                topology.LeavesOf(p) ==
                if found then TopologySpec.RemoveLeaf(old(topology.LeavesOf(p)), leafID) else old(topology.LeavesOf(p))
    {
      hide Topology.Valid, HomeIn, Linked, Keyed, LeafRecs, ServerRecs, LeafRecOf, ParentOk, ChildOk, ChildrenHeld,
        VCManager.Wf, Exact, Homed, VCListMap.At, VCListMap.Ids, VCListMap.Valid, VCManager.Clusters, Children,
        VCManager.Reg, DetachLeaf, Server.Valid, Topology.LeavesOf;
      if leafID !in topology.Leaves {
        return false, false;
      }
      var detached := DetachUsers(leafID);
      var leafIdx := RemoveLeafNode(leafID);
      return true, leafIdx >= 0 && detached;
    }

    // ---------- AddLeaf, AddServer ----------

    twostate lemma HeldByMore()
      requires vcm.topology == topology && old(vcm.Valid()) && ManagerUntouched()
      requires forall k | k in old(topology.Servers) ::
               k in topology.Servers && topology.Servers[k] == old(topology.Servers[k])
      requires forall k | k in old(topology.Leaves) ::
               k in topology.Leaves && topology.Leaves[k] == old(topology.Leaves[k])
      ensures forall c | c in vcm.vcs :: vcm.vcs[c].HeldBy(topology)
    {
      forall c | c in vcm.vcs ensures vcm.vcs[c].HeldBy(topology) {
        assert old(vcm.vcs[c].HeldBy(topology));
      }
    }

    lemma HomedInGrown(vcs: map<u16, Cluster>, home: map<u16, u16>, more: map<u16, u16>)
      requires Homed(vcs, home) && forall s | s in home :: s in more && more[s] == home[s]
      ensures Homed(vcs, more)
    {
    }

    method AddLeaf(info: TopologySpec.LeafInfo, spineID: u16) returns (accepted: bool)
      requires Valid()
      modifies topology`Leaves, topology.AtMostSpine(spineID)`Children
      ensures vcm.vcs == old(vcm.vcs)
      ensures Valid() && vcm.Reg() == old(vcm.Reg())
      ensures accepted <==> spineID in topology.Spines && info.id !in old(topology.Leaves) &&
                            !TopologySpec.AddressTaken(old(topology.LeavesOf(spineID)), info)
      ensures forall p | p in topology.Spines ::
                topology.LeavesOf(p) ==
                  if p == spineID && accepted then TopologySpec.AddLeaf(old(topology.LeavesOf(p)), info)
                                        else old(topology.LeavesOf(p))
    {
      hide Linked, Keyed, LeafRecs, ServerRecs, LeafRecOf, ParentOk, ChildOk, ChildrenHeld, VCManager.Wf, Homed,
        Exact, Topology.Valid, VCListMap.At, VCListMap.Ids, VCListMap.Valid, HomeIn;
      var r := topology.AddLeafToSpine(info, spineID);
      assert vcm.serverVCs.internal == old(vcm.serverVCs.internal) && vcm.leafVCs.internal == old(vcm.leafVCs.internal);
      assert forall b | b in vcm.serverVCs.Buffers() + vcm.leafVCs.Buffers() :: b[..] == old(b[..]);
      assert ManagerUntouched();
      HeldByMore();
      HomeGrows();
      HomedInGrown(old(vcm.Clusters()), old(HomeIn(topology)), HomeIn(topology));
      AfterTopologyChange();
      return r.Added?;
    }

    twostate lemma HomeGrows()
      requires forall k | k in old(topology.Servers) ::
               k in topology.Servers && topology.Servers[k] == old(topology.Servers[k])
      requires forall k | k in old(topology.Servers) :: topology.Servers[k].Parent == old(topology.Servers[k].Parent)
      ensures forall s | s in old(HomeIn(topology)) ::
              s in HomeIn(topology) && HomeIn(topology)[s] == old(HomeIn(topology))[s]
    {
    }

    twostate lemma HomeWithOneMore(new serverID: u16, new leafID: u16, new added: bool)
      requires added ==> topology.Valid() && serverID !in old(topology.Servers)
      requires forall k | k in old(topology.Servers) ::
               old(topology.Servers[k]).Parent == old(topology.Servers[k].Parent)
      requires if added then
                 && leafID in topology.Leaves
                 && serverID in topology.Servers && topology.Servers[serverID].Parent == topology.Leaves[leafID]
                 && topology.Servers == old(topology.Servers)[serverID := topology.Servers[serverID]]
               else topology.Servers == old(topology.Servers)
      ensures HomeIn(topology) == if added then old(HomeIn(topology))[serverID := leafID] else old(HomeIn(topology))
    {
    }

    method AddServer(info: TopologySpec.ServerInfo, leafID: u16) returns (accepted: bool)
      requires Valid()
      modifies topology`Servers, topology.AtMostLeaf(leafID)`Children
      modifies topology.AtMostLeaf(leafID)`FirstWorkerID, topology.AtMostLeaf(leafID)`LastWorkerID
      ensures vcm.vcs == old(vcm.vcs)
      ensures Valid() && vcm.Reg() == old(vcm.Reg())
      ensures accepted <==> leafID in topology.Leaves && info.id !in old(topology.Servers)
      ensures HomeIn(topology) == if accepted then old(HomeIn(topology))[info.id := leafID] else old(HomeIn(topology))
      ensures forall p | p in topology.Spines ::
                topology.LeavesOf(p) == if accepted then TopologySpec.AddServer(old(topology.LeavesOf(p)), info, leafID)
                                        else old(topology.LeavesOf(p))
    {
      hide Linked, Keyed, LeafRecs, ServerRecs, LeafRecOf, ParentOk, ChildOk, ChildrenHeld, VCManager.Wf, Homed,
        Exact, Topology.Valid, VCListMap.At, VCListMap.Ids, VCListMap.Valid, HomeIn;
      var r := topology.AddServerToLeaf(info, leafID);
      assert vcm.serverVCs.internal == old(vcm.serverVCs.internal) && vcm.leafVCs.internal == old(vcm.leafVCs.internal);
      assert forall b | b in vcm.serverVCs.Buffers() + vcm.leafVCs.Buffers() :: b[..] == old(b[..]);
      assert ManagerUntouched();
      HeldByMore();
      HomeGrows();
      HomedInGrown(old(vcm.Clusters()), old(HomeIn(topology)), HomeIn(topology));
      AfterTopologyChange();
      HomeWithOneMore(info.id, leafID, r.Added?);
      return r.Added?;
    }

    // ---------- AddVC, RemoveVC ----------

    lemma AllAtHome()
      requires topology.Valid()
      ensures HomeIn(topology).Keys == topology.Servers.Keys
    {
      forall k | k in topology.Servers ensures k in HomeIn(topology) {
        assert ChildOk(topology.Servers[k], topology.Leaves);
      }
    }

    method Resolve(id: u16, spines: seq<u16>, servers: seq<u16>) returns (vc: VirtualCluster?)
      requires Valid()
      ensures vc != null ==> vc.Spines.Keys == set p | p in spines
      ensures vc != null <==>
              (forall p | p in spines :: p in topology.Spines) && (forall s | s in servers :: s in topology.Servers)
      ensures vc != null ==>
                && fresh(vc) && vc.ClusterID == id && vcm.Fits(vc)
                && vc.AsCluster() == ClusterOf((set s | s in servers), HomeIn(topology))
    {
      hide Linked, ChildrenHeld, ParentOk, ChildOk, VCManager.Wf, Exact, Homed, HomeIn;
      var r := NewVC(id, spines, servers, topology);
      AllAtHome();
      if !r.Created? {
        return null;
      }
      NewVCIsHeld(r.vc, topology);
      assert r.vc.Servers.Keys == set s | s in servers;
      return r.vc;
    }

    method AddVC(id: u16, spines: seq<u16>, servers: seq<u16>) returns (accepted: bool)
      requires Valid()
      modifies vcm`vcs, vcm.serverVCs, vcm.serverVCs.Buffers(), vcm.leafVCs, vcm.leafVCs.Buffers()
      ensures if accepted then id in vcm.vcs && vcm.vcs[id].Spines.Keys == (set p | p in spines) &&
                                   vcm.vcs == old(vcm.vcs)[id := vcm.vcs[id]]
              else vcm.vcs == old(vcm.vcs)
      ensures Valid()
      ensures accepted <==> id !in old(vcm.vcs) && (forall p | p in spines :: p in topology.Spines) &&
                            (forall s | s in servers :: s in topology.Servers)
      ensures vcm.Reg() == if !accepted then old(vcm.Reg())
                           else VCRegistry.AddVC(old(vcm.Reg()), id,
                                                 ClusterOf((set s | s in servers), old(HomeIn(topology))))
    {
      hide Linked, Keyed, LeafRecs, ServerRecs, LeafRecOf, ParentOk, ChildOk, ChildrenHeld, VCManager.Wf, Homed,
        Exact, Topology.Valid, VCListMap.At, VCListMap.Ids, VCListMap.Valid, HomeIn, VirtualCluster.AsCluster;
      ghost var reg := vcm.Reg();
      var vc := Resolve(id, spines, servers);
      assert vcm.Valid();
      assert vcm.Reg() == reg;
      if vc == null {
        return false;
      }
      accepted := vcm.AddVC(vc);
      KnownByID(reg, id);
    }

    lemma KnownByID(r: Registry, id: u16)
      ensures id in r.vcs ==> forall vc :: VCRegistry.AddVC(r, id, vc) == r
    {
    }

    method RemoveVC(id: u16) returns (found: bool)
      requires Valid()
      modifies vcm`vcs, vcm.serverVCs, vcm.serverVCs.Buffers(), vcm.leafVCs, vcm.leafVCs.Buffers()
      ensures vcm.Shrinks()
      ensures Valid()
      ensures found <==> id in old(vcm.vcs)
      ensures vcm.Reg() == VCRegistry.RemoveVC(old(vcm.Reg()), id)
    {
      hide Linked, Keyed, ChildrenHeld, ParentOk, ChildOk, Homed, Exact, VCListMap.At, VCListMap.Ids,
        VCListMap.Valid, HomeIn, Topology.Valid, Apart, VirtualCluster.AsCluster, RemoveAt, VirtualCluster.HeldBy;
      ghost var reg, home := vcm.Reg(), HomeIn(topology);
      RemoveVCKeepsExact(reg, id);
      HomedInFewer(reg.vcs, id, home);
      var vc := vcm.GetVC(id);
      if vc == null {
        return false;
      }
      found := vcm.RemoveVC(vc);
      assert topology.Valid();
      assert HomeIn(topology) == home;
      assert vcm.Clusters() == reg.vcs - {id};
    }
  }

  lemma LeafIsBelow(t: Topology, p: u16, leaf: Node) returns (i: nat)
    requires t.Valid() && t.Spines.Keys == {p} && Holds(t.Leaves, leaf)
    ensures i < |t.Spines[p].Children| && t.Spines[p].Children[i] == leaf
    ensures t.LeavesOf(p)[i] == LeafRecOf(leaf)
  {
    assert ChildOk(leaf, t.Spines);
    i :| 0 <= i < |t.Spines[p].Children| && t.Spines[p].Children[i] == leaf;
  }

  lemma LeafLookupDecides(t: Topology, p: u16, id: u16)
    requires t.Valid() && t.Spines.Keys == {p}
    ensures TopologySpec.HasLeaf(t.LeavesOf(p), id) <==> id in t.Leaves
  {
    assert ChildrenHeld(t.Spines[p], t.Leaves);
    if id in t.Leaves {
      var i := LeafIsBelow(t, p, t.Leaves[id]);
    }
    if i :| 0 <= i < |t.LeavesOf(p)| && t.LeavesOf(p)[i].id == id {
      assert Holds(t.Leaves, t.Spines[p].Children[i]);
    }
  }

  lemma ServerLookupDecides(t: Topology, p: u16, id: u16)
    requires t.Valid() && t.Spines.Keys == {p}
    ensures TopologySpec.AnyHasServer(t.LeavesOf(p), id) <==> id in t.Servers
  {
    if id in t.Servers {
      assert ChildOk(t.Servers[id], t.Leaves);
      var i := LeafIsBelow(t, p, t.Servers[id].Parent);
      t.ServersOfLeaf(t.Servers[id].Parent, id);
    } else {
      t.NoServerAnywhere(id);
    }
  }

  /** With one spine, the lookups of the handlers in the ID maps decide what the searches of
      CentralLog.Accepts below that spine decide. */
  lemma LookupsDecideAcceptance(t: Topology, p: u16)
    requires t.Valid() && t.Spines.Keys == {p}
    ensures TopologySpec.DistinctLeaves(t.LeavesOf(p))
    ensures forall id :: TopologySpec.HasLeaf(t.LeavesOf(p), id) <==> id in t.Leaves
    ensures forall id :: TopologySpec.AnyHasServer(t.LeavesOf(p), id) <==> id in t.Servers
  {
    t.LeafRecsDiffer(p);
    forall id ensures TopologySpec.HasLeaf(t.LeavesOf(p), id) <==> id in t.Leaves {
      LeafLookupDecides(t, p, id);
    }
    forall id ensures TopologySpec.AnyHasServer(t.LeavesOf(p), id) <==> id in t.Servers {
      ServerLookupDecides(t, p, id);
    }
  }

  lemma HomedInFewer(vcs: map<u16, Cluster>, c: u16, home: map<u16, u16>)
    requires Homed(vcs, home)
    ensures Homed(vcs - {c}, home)
  {
  }

  /** The cluster with the given servers. */
  ghost function ClusterOf(servers: set<u16>, home: map<u16, u16>): Cluster {
    Cluster(servers, set s | s in servers && s in home :: home[s])
  }
}
