/** The request handlers of the spine and leaf controllers (core/net/topologyServer_spine.go,
    core/net/topologyServer_leaf.go) as the steps of one controller in VCReplication. They make the same calls as
    those of central, in the same order, and so are run on the objects of CentralServer. */
module ControllerHandlers {
  import opened Words
  import TopologySpec
  import opened TopologyTree
  import opened VCRegistry
  import opened VirtualClusters
  import opened VCLists
  import opened VCManagement
  import opened CentralServer
  import opened VCReplication

  /** The controller's registry and the leaves of its servers. */
  ghost predicate Is(server: Server, ctl: Ctl)
    reads server.vcm, server.vcm.vcs.Values, server.topology
    reads server.topology.Spines.Values, server.topology.Leaves.Values, server.topology.Servers.Values
    reads server.vcm.serverVCs, server.vcm.serverVCs.Buffers(), server.vcm.leafVCs, server.vcm.leafVCs.Buffers()
  {
    server.Valid() && ctl == Ctl(server.vcm.Reg(), HomeIn(server.topology))
  }

  /** The lookups of the handlers in the maps of the topology. */
  lemma Lookups(server: Server, ctl: Ctl)
    requires Is(server, ctl)
    ensures ctl.home.Keys == server.topology.Servers.Keys
    ensures ctl.reg.vcs.Keys == server.vcm.vcs.Keys
    ensures forall s :: server.SomeVCHas(s) <==> exists c :: c in ctl.reg.vcs && s in ctl.reg.vcs[c].servers
    ensures CtlOk(ctl)
  {
    server.AllAtHome();
    forall c | c in server.vcm.vcs ensures ctl.reg.vcs[c] == server.vcm.vcs[c].AsCluster() {
    }
  }

  method OnFailServer(server: Server, id: u16, ghost ctl: Ctl) returns (announced: bool)
    requires Is(server, ctl)
    modifies server.vcm`vcs, server.vcm.vcs.Values`Servers, server.vcm.vcs.Values`Leaves
    modifies server.vcm.serverVCs, server.vcm.serverVCs.Buffers(), server.vcm.leafVCs, server.vcm.leafVCs.Buffers()
    modifies server.topology`Servers
    modifies server.topology.Leaves.Values`Children
    modifies server.topology.Leaves.Values`FirstWorkerID, server.topology.Leaves.Values`LastWorkerID
    modifies server.topology.Servers.Values`FirstWorkerID, server.topology.Servers.Values`LastWorkerID
    ensures Is(server, CtlFailServer(ctl, id))
    ensures announced <==> id in ctl.home && exists c :: c in ctl.reg.vcs && id in ctl.reg.vcs[c].servers
  {
    hide Server.Valid, Topology.LeavesOf, VCManager.Reg, DetachServer, Server.SomeVCHas, Grandchildren;
    Lookups(server, ctl);
    var found;
    found, announced := server.FailServer(id);
  }

  method OnFailLeaf(server: Server, leafID: u16, ghost ctl: Ctl) returns (found: bool)
    requires Is(server, ctl)
    modifies server.vcm`vcs, server.vcm.vcs.Values`Servers, server.vcm.vcs.Values`Leaves
    modifies server.vcm.serverVCs, server.vcm.serverVCs.Buffers(), server.vcm.leafVCs, server.vcm.leafVCs.Buffers()
    modifies server.topology`Leaves, server.topology`Servers, server.topology.Spines.Values`Children
    modifies server.topology.Leaves.Values`Children, server.topology.Leaves.Values`Index
    modifies server.topology.Leaves.Values`FirstWorkerID, server.topology.Leaves.Values`LastWorkerID
    modifies server.topology.Servers.Values`FirstWorkerID, server.topology.Servers.Values`LastWorkerID
    ensures found <==> leafID in old(server.topology.Leaves)
    ensures Is(server, if found then CtlFailLeaf(ctl, leafID) else ctl)
  {
    hide Server.Valid, Topology.LeavesOf, VCManager.Reg, DetachLeaf, Grandchildren;
    Lookups(server, ctl);
    var announced;
    found, announced := server.FailLeaf(leafID);
  }

  method OnAddServer(server: Server, info: TopologySpec.ServerInfo, leafID: u16, ghost ctl: Ctl)
    returns (accepted: bool)
    requires Is(server, ctl)
    modifies server.topology`Servers, server.topology.AtMostLeaf(leafID)`Children
    modifies server.topology.AtMostLeaf(leafID)`FirstWorkerID, server.topology.AtMostLeaf(leafID)`LastWorkerID
    ensures accepted <==> info.id !in ctl.home && leafID in server.topology.Leaves
    ensures Is(server, if accepted then CtlAddServer(ctl, info.id, leafID) else ctl)
  {
    hide Server.Valid, Topology.LeavesOf, VCManager.Reg, Grandchildren;
    Lookups(server, ctl);
    accepted := server.AddServer(info, leafID);
  }

  lemma CreatedIs(ctl: Ctl, id: u16, servers: seq<u16>)
    ensures CtlAddVC(ctl, id, ToSet(servers)) ==
            if id !in ctl.reg.vcs && forall s | s in servers :: s in ctl.home
            then ctl.(reg := VCRegistry.AddVC(ctl.reg, id, ClusterOf((set s | s in servers), ctl.home)))
            else ctl
  {
    var all, home := ToSet(servers), ctl.home;
    assert all == set s | s in servers;
    assert all <= home.Keys <==> forall s | s in servers :: s in home;
    if all <= home.Keys {
      assert ClusterOf((set s | s in servers), home) == Cluster(all, Above(all, home));
      assert id in ctl.reg.vcs ==> VCRegistry.AddVC(ctl.reg, id, Cluster(all, Above(all, home))) == ctl.reg;
    }
  }

  method OnAddVC(server: Server, id: u16, spines: seq<u16>, servers: seq<u16>, ghost ctl: Ctl)
    returns (accepted: bool)
    requires Is(server, ctl)
    modifies server.vcm`vcs
    modifies server.vcm.serverVCs, server.vcm.serverVCs.Buffers(), server.vcm.leafVCs, server.vcm.leafVCs.Buffers()
    ensures accepted <==> id !in ctl.reg.vcs && (forall p | p in spines :: p in server.topology.Spines) &&
                          (forall s | s in servers :: s in ctl.home)
    ensures Is(server, if forall p | p in spines :: p in server.topology.Spines
                       then CtlAddVC(ctl, id, ToSet(servers)) else ctl)
  {
    hide Server.Valid, VCManager.Reg, HomeIn, VCManager.Clusters, CtlAddVC, ClusterOf, VCRegistry.AddVC, CtlOk,
      Server.SomeVCHas;
    Lookups(server, ctl);
    CreatedIs(ctl, id, servers);
    accepted := server.AddVC(id, spines, servers);
  }

  method OnRemoveVC(server: Server, id: u16, ghost ctl: Ctl) returns (found: bool)
    requires Is(server, ctl)
    modifies server.vcm`vcs
    modifies server.vcm.serverVCs, server.vcm.serverVCs.Buffers(), server.vcm.leafVCs, server.vcm.leafVCs.Buffers()
    ensures found <==> id in ctl.reg.vcs
    ensures Is(server, CtlRemoveVC(ctl, id))
  {
    hide Server.Valid, VCManager.Reg, VCRegistry.RemoveVC, VCManager.Clusters;
    Lookups(server, ctl);
    found := server.RemoveVC(id);
  }
}
