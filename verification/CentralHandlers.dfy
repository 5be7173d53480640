/** The handlers of CentralServer as the steps of CentralRuns: whatever requests the controller serves, its
    objects are in the state of the run. */
module CentralHandlers {
  import opened Words
  import opened TopologySpec
  import opened CentralLog
  import opened CentralRuns
  import opened TopologyTree
  import VCRegistry
  import opened VirtualClusters
  import opened VCLists
  import opened VCManagement
  import opened CentralServer

  /** The one spine has the tree, and the registry the clusters, of the given state of the run. */
  ghost predicate Agrees(server: Server, p: u16, w: World)
    reads server.vcm, server.vcm.vcs.Values, server.topology
    reads server.topology.Spines.Values, server.topology.Leaves.Values, server.topology.Servers.Values
    reads server.vcm.serverVCs, server.vcm.serverVCs.Buffers(), server.vcm.leafVCs, server.vcm.leafVCs.Buffers()
    reads if p in server.topology.Spines then {server.topology.Spines[p]} else {}
    reads if p in server.topology.Spines then server.topology.Spines[p].Children else []
    reads if p in server.topology.Spines then Grandchildren(server.topology.Spines[p].Children) else {}
  {
    && server.Valid() && server.topology.Spines.Keys == {p}
    && w.c.leaves == server.topology.LeavesOf(p) && w.reg == server.vcm.Reg()
  }

  /** The controller, with one spine, is in the given state of the run. */
  ghost predicate IsIn(server: Server, p: u16, w: World)
    reads server.vcm, server.vcm.vcs.Values, server.topology
    reads server.topology.Spines.Values, server.topology.Leaves.Values, server.topology.Servers.Values
    reads server.vcm.serverVCs, server.vcm.serverVCs.Buffers(), server.vcm.leafVCs, server.vcm.leafVCs.Buffers()
    reads if p in server.topology.Spines then {server.topology.Spines[p]} else {}
    reads if p in server.topology.Spines then server.topology.Spines[p].Children else []
    reads if p in server.topology.Spines then Grandchildren(server.topology.Spines[p].Children) else {}
  {
    Agrees(server, p, w) && w.here == Naming(server.vcm, p)
  }

  /** The registered clusters that name the spine. */
  ghost function Naming(vcm: VCManager, p: u16): set<u16>
    reads vcm, vcm.vcs.Values
  {
    set c | c in vcm.vcs && p in vcm.vcs[c].Spines
  }

  /** The parent pointers say what the children lists say. */
  lemma HomeIsHome(t: Topology, p: u16)
    requires t.Valid() && t.Spines.Keys == {p}
    ensures HomeIn(t) == Home(t.LeavesOf(p))
  {
    LookupsDecideAcceptance(t, p);
    var ls := t.LeavesOf(p);
    forall s ensures s in HomeIn(t) <==> s in Home(ls) {
      if s in t.Servers {
        assert ChildOk(t.Servers[s], t.Leaves);
      }
    }
    forall s | s in t.Servers ensures HomeIn(t)[s] == Home(ls)[s] {
      var i :| 0 <= i < |ls| && HasServer(ls[i], s) && LeafOf(ls, s) == ls[i].id;
      assert ChildrenHeld(t.Spines[p], t.Leaves);
      t.ServersOfLeaf(t.Spines[p].Children[i], s);
    }
  }

  /** A request that adds no cluster: those that name the spine are the old ones that are still there. */
  lemma StillNamed(server: Server, p: u16, w: World, q: Client)
    requires !q.AddVCReq? && Agrees(server, p, Handle(w, q))
    requires Naming(server.vcm, p) == set c | c in w.here && c in server.vcm.vcs
    ensures IsIn(server, p, Handle(w, q))
  {
    assert server.vcm.Reg().vcs.Keys == server.vcm.vcs.Keys;
  }

  /** Before a request: what the lookups in the maps and in the registry find. */
  lemma Lookups(server: Server, p: u16, w: World)
    requires IsIn(server, p, w)
    ensures HomeIn(server.topology) == Home(w.c.leaves)
    ensures forall id :: HasLeaf(w.c.leaves, id) <==> id in server.topology.Leaves
    ensures forall id :: AnyHasServer(w.c.leaves, id) <==> id in server.topology.Servers
    ensures forall id :: InSomeVC(w.reg, id) <==> server.SomeVCHas(id)
    ensures w.reg.vcs.Keys == server.vcm.vcs.Keys
  {
    HomeIsHome(server.topology, p);
    LookupsDecideAcceptance(server.topology, p);
    forall id ensures InSomeVC(w.reg, id) <==> server.SomeVCHas(id) {
      forall c | c in server.vcm.vcs
        ensures id in w.reg.vcs[c].servers <==> id in server.vcm.vcs[c].Servers
      {
        assert w.reg.vcs[c] == server.vcm.vcs[c].AsCluster();
      }
    }
  }

  /** One entry more in the log if the request is announced, otherwise the same log. */
  ghost predicate Logged(w: World, q: Client, announced: bool) {
    var log := Handle(w, q).c.log;
    if announced then |log| == |w.c.log| + 1 && log[..|w.c.log|] == w.c.log else log == w.c.log
  }

  lemma ServerFailed(w: World, id: u16)
    ensures var now, found := Handle(w, FailServerReq(id)), AnyHasServer(w.c.leaves, id);
            && now.c.leaves == (if found then TopologySpec.RemoveServer(w.c.leaves, id) else w.c.leaves)
            && now.reg == (if found then VCRegistry.DetachServer(w.reg, id, Home(w.c.leaves)) else w.reg)
            && Logged(w, FailServerReq(id), found && InSomeVC(w.reg, id))
  {
  }

  method FailServerBelow(server: Server, p: u16, id: u16, ghost w: World) returns (announced: bool)
    requires IsIn(server, p, w)
    modifies server.vcm`vcs, server.vcm.vcs.Values`Servers, server.vcm.vcs.Values`Leaves
    modifies server.vcm.serverVCs, server.vcm.serverVCs.Buffers(), server.vcm.leafVCs, server.vcm.leafVCs.Buffers()
    modifies server.topology`Servers
    modifies server.topology.Leaves.Values`Children
    modifies server.topology.Leaves.Values`FirstWorkerID, server.topology.Leaves.Values`LastWorkerID
    modifies server.topology.Servers.Values`FirstWorkerID, server.topology.Servers.Values`LastWorkerID
    ensures Agrees(server, p, Handle(w, FailServerReq(id))) && Logged(w, FailServerReq(id), announced)
    ensures Naming(server.vcm, p) == set c | c in w.here && c in server.vcm.vcs
  {
    hide Handle, Logged, HomeIn, Server.Valid, Topology.LeavesOf, Home, InSomeVC, Server.SomeVCHas,
      VCRegistry.DetachServer, AnyHasServer, HasLeaf, TopologySpec.RemoveServer, VCManager.Reg, Grandchildren,
      VCListMap.Buffers;
    Lookups(server, p, w);
    ServerFailed(w, id);
    var found;
    found, announced := server.FailServer(id);
  }

  method OnFailServer(server: Server, p: u16, id: u16, ghost w: World) returns (announced: bool)
    requires IsIn(server, p, w)
    modifies server.vcm`vcs, server.vcm.vcs.Values`Servers, server.vcm.vcs.Values`Leaves
    modifies server.vcm.serverVCs, server.vcm.serverVCs.Buffers(), server.vcm.leafVCs, server.vcm.leafVCs.Buffers()
    modifies server.topology`Servers
    modifies server.topology.Leaves.Values`Children
    modifies server.topology.Leaves.Values`FirstWorkerID, server.topology.Leaves.Values`LastWorkerID
    modifies server.topology.Servers.Values`FirstWorkerID, server.topology.Servers.Values`LastWorkerID
    ensures IsIn(server, p, Handle(w, FailServerReq(id)))
    ensures Logged(w, FailServerReq(id), announced)
  {
    hide Handle, Logged, Naming, Agrees;
    announced := FailServerBelow(server, p, id, w);
    StillNamed(server, p, w, FailServerReq(id));
  }

  lemma LeafFailed(w: World, id: u16)
    ensures var now, found := Handle(w, FailLeafReq(id)), HasLeaf(w.c.leaves, id);
            && now.c.leaves == (if found then TopologySpec.RemoveLeaf(w.c.leaves, id) else w.c.leaves)
            && now.reg == (if found then VCRegistry.DetachLeaf(w.reg, id, Home(w.c.leaves)) else w.reg)
            && Logged(w, FailLeafReq(id), found)
  {
  }

  method FailLeafBelow(server: Server, p: u16, id: u16, ghost w: World) returns (announced: bool)
    requires IsIn(server, p, w)
    modifies server.vcm`vcs, server.vcm.vcs.Values`Servers, server.vcm.vcs.Values`Leaves
    modifies server.vcm.serverVCs, server.vcm.serverVCs.Buffers(), server.vcm.leafVCs, server.vcm.leafVCs.Buffers()
    modifies server.topology`Leaves, server.topology`Servers, server.topology.Spines.Values`Children
    modifies server.topology.Leaves.Values`Children, server.topology.Leaves.Values`Index
    modifies server.topology.Leaves.Values`FirstWorkerID, server.topology.Leaves.Values`LastWorkerID
    modifies server.topology.Servers.Values`FirstWorkerID, server.topology.Servers.Values`LastWorkerID
    ensures Agrees(server, p, Handle(w, FailLeafReq(id))) && Logged(w, FailLeafReq(id), announced)
    ensures Naming(server.vcm, p) == set c | c in w.here && c in server.vcm.vcs
  {
    hide Handle, Logged, HomeIn, Server.Valid, Topology.LeavesOf, Home, InSomeVC, VCRegistry.DetachLeaf,
      AnyHasServer, HasLeaf, TopologySpec.RemoveLeaf, VCManager.Reg, Grandchildren;
    Lookups(server, p, w);
    LeafFailed(w, id);
    var found;
    found, announced := server.FailLeaf(id);
  }

  method OnFailLeaf(server: Server, p: u16, id: u16, ghost w: World) returns (announced: bool)
    requires IsIn(server, p, w)
    modifies server.vcm`vcs, server.vcm.vcs.Values`Servers, server.vcm.vcs.Values`Leaves
    modifies server.vcm.serverVCs, server.vcm.serverVCs.Buffers(), server.vcm.leafVCs, server.vcm.leafVCs.Buffers()
    modifies server.topology`Leaves, server.topology`Servers, server.topology.Spines.Values`Children
    modifies server.topology.Leaves.Values`Children, server.topology.Leaves.Values`Index
    modifies server.topology.Leaves.Values`FirstWorkerID, server.topology.Leaves.Values`LastWorkerID
    modifies server.topology.Servers.Values`FirstWorkerID, server.topology.Servers.Values`LastWorkerID
    ensures IsIn(server, p, Handle(w, FailLeafReq(id)))
    ensures Logged(w, FailLeafReq(id), announced)
  {
    hide Handle, Logged, Naming, Agrees;
    announced := FailLeafBelow(server, p, id, w);
    StillNamed(server, p, w, FailLeafReq(id));
  }

  method OnAddLeaf(server: Server, p: u16, info: LeafInfo, ghost w: World) returns (announced: bool)
    requires IsIn(server, p, w)
    modifies server.topology`Leaves, server.topology.AtMostSpine(p)`Children
    ensures IsIn(server, p, Handle(w, AddLeafReq(info)))
    ensures Logged(w, AddLeafReq(info), announced)
  {
    hide HereAfter, HomeIn, Server.Valid, Topology.LeavesOf, Home, InSomeVC, Server.SomeVCHas, AnyHasServer,
      HasLeaf, AddressTaken, TopologySpec.AddLeaf, VCManager.Reg;
    Lookups(server, p, w);
    announced := server.AddLeaf(info, p);
    assert Naming(server.vcm, p) == set c | c in w.here && c in server.vcm.vcs;
    assert Agrees(server, p, Handle(w, AddLeafReq(info)));
    StillNamed(server, p, w, AddLeafReq(info));
  }

  method OnAddServer(server: Server, p: u16, info: ServerInfo, parent: u16, ghost w: World) returns (announced: bool)
    requires IsIn(server, p, w)
    modifies server.topology`Servers, server.topology.AtMostLeaf(parent)`Children
    modifies server.topology.AtMostLeaf(parent)`FirstWorkerID, server.topology.AtMostLeaf(parent)`LastWorkerID
    ensures IsIn(server, p, Handle(w, AddServerReq(info, parent)))
    ensures Logged(w, AddServerReq(info, parent), announced)
  {
    hide HereAfter, HomeIn, Server.Valid, Topology.LeavesOf, Home, InSomeVC, Server.SomeVCHas, AnyHasServer,
      HasLeaf, TopologySpec.AddServer, VCManager.Reg;
    Lookups(server, p, w);
    announced := server.AddServer(info, parent);
    assert Naming(server.vcm, p) == set c | c in w.here && c in server.vcm.vcs;
    assert Agrees(server, p, Handle(w, AddServerReq(info, parent)));
    StillNamed(server, p, w, AddServerReq(info, parent));
  }

  /** What adding a cluster makes of the state. */
  lemma VCAdded(w: World, id: u16, servers: set<u16>, named: bool, accepted: bool, reg: VCRegistry.Registry)
    requires accepted <==> id !in w.reg.vcs && forall s | s in servers :: AnyHasServer(w.c.leaves, s)
    requires reg == if accepted then VCRegistry.AddVC(w.reg, id, ClusterOf(servers, Home(w.c.leaves))) else w.reg
    requires w.here <= w.reg.vcs.Keys
    ensures var now := Handle(w, AddVCReq(id, servers, named));
            && now.c.leaves == w.c.leaves && now.reg == reg
            && now.here == if accepted && named then w.here + {id} else w.here
    ensures Logged(w, AddVCReq(id, servers, named), accepted && named)
  {
    var home := Home(w.c.leaves);
    if accepted {
      assert forall s | s in servers :: s in home;
      assert ClusterOf(servers, home) == VCRegistry.Cluster(servers, VCRegistry.Above(servers, home));
    }
  }

  method AddVCBelow(server: Server, p: u16, id: u16, spines: seq<u16>, servers: seq<u16>, ghost w: World)
    returns (accepted: bool)
    requires IsIn(server, p, w)
    modifies server.vcm`vcs
    modifies server.vcm.serverVCs, server.vcm.serverVCs.Buffers(), server.vcm.leafVCs, server.vcm.leafVCs.Buffers()
    ensures server.Valid() && server.topology.Spines.Keys == {p} && server.topology.LeavesOf(p) == w.c.leaves
    ensures accepted <==> id !in w.reg.vcs && (forall q | q in spines :: q == p) &&
                          (forall s | s in servers :: AnyHasServer(w.c.leaves, s))
    ensures server.vcm.Reg() ==
            if !accepted then w.reg
            else VCRegistry.AddVC(w.reg, id, ClusterOf((set s | s in servers), Home(w.c.leaves)))
    ensures Naming(server.vcm, p) == if accepted && p in spines then w.here + {id} else w.here
  {
    hide HomeIn, Topology.Valid, VCManager.Wf, VCManager.Reg, VCRegistry.Exact, VCRegistry.Homed, LeafRecs,
      VCManager.Clusters, Home, InSomeVC, Server.SomeVCHas, AnyHasServer, HasLeaf, VCRegistry.AddVC, ClusterOf,
      ServerRecs, VCListMap.Buffers;
    Lookups(server, p, w);
    accepted := server.AddVC(id, spines, servers);
  }

  /** The request may name the spine, once or more often, or no spine at all. */
  method OnAddVC(server: Server, p: u16, id: u16, spines: seq<u16>, servers: seq<u16>, ghost w: World)
    returns (announced: bool)
    requires IsIn(server, p, w)
    modifies server.vcm`vcs
    modifies server.vcm.serverVCs, server.vcm.serverVCs.Buffers(), server.vcm.leafVCs, server.vcm.leafVCs.Buffers()
    ensures (forall q | q in spines :: q == p) ==>
              && IsIn(server, p, Handle(w, AddVCReq(id, (set s | s in servers), p in spines)))
              && Logged(w, AddVCReq(id, (set s | s in servers), p in spines), announced)
    ensures !(forall q | q in spines :: q == p) ==> !announced && IsIn(server, p, w)
  {
    hide HomeIn, VCManager.Reg, VCRegistry.AddVC, AnyHasServer, ClusterOf, Home, Handle, Logged, Naming,
      Topology.LeavesOf, InSomeVC, HasLeaf;
    Lookups(server, p, w);
    NamedAreRegistered(server.vcm, p);
    var accepted := AddVCBelow(server, p, id, spines, servers, w);
    if forall q | q in spines :: q == p {
      VCAdded(w, id, (set s | s in servers), p in spines, accepted, server.vcm.Reg());
    }
    return accepted && p in spines;
  }

  lemma NamedAreRegistered(vcm: VCManager, p: u16)
    ensures Naming(vcm, p) <= vcm.vcs.Keys
  {
  }

  lemma VCRemoved(w: World, id: u16)
    ensures var now := Handle(w, RemoveVCReq(id));
            && now.c.leaves == w.c.leaves && now.reg == VCRegistry.RemoveVC(w.reg, id)
            && Logged(w, RemoveVCReq(id), id in w.reg.vcs && id in w.here)
  {
  }

  method OnRemoveVC(server: Server, p: u16, id: u16, ghost w: World) returns (announced: bool)
    requires IsIn(server, p, w)
    modifies server.vcm`vcs
    modifies server.vcm.serverVCs, server.vcm.serverVCs.Buffers(), server.vcm.leafVCs, server.vcm.leafVCs.Buffers()
    ensures IsIn(server, p, Handle(w, RemoveVCReq(id)))
    ensures Logged(w, RemoveVCReq(id), announced)
  {
    hide Handle, Logged, HomeIn, Server.Valid, InSomeVC, Server.SomeVCHas, VCRegistry.RemoveVC, VCManager.Reg,
      AnyHasServer, HasLeaf, ServerRecs, VCListMap.Buffers;
    Lookups(server, p, w);
    VCRemoved(w, id);
    announced := id in server.vcm.vcs && p in server.vcm.vcs[id].Spines;
    var found := server.RemoveVC(id);
    assert server.topology.LeavesOf(p) == w.c.leaves;
    assert Naming(server.vcm, p) == set c | c in w.here && c in server.vcm.vcs;
    assert Agrees(server, p, Handle(w, RemoveVCReq(id)));
    StillNamed(server, p, w, RemoveVCReq(id));
  }
}
