/** What the leaf controllers know of the virtual clusters.

    The spine holds whole clusters and tells each leaf only about the servers below it
    (core/net/rpc_endpoint_spine.go, core/net/topologyServer_spine.go, core/net/topologyServer_leaf.go).
    Requests are handled and delivered one after another; in every state reached so, a leaf controller
    holds exactly the projection of the spine's clusters to that leaf. */
module VCReplication {
  import opened Words
  import opened VCRegistry

  /** A controller's registry and the leaf of each server in its topology. */
  datatype Ctl = Ctl(reg: Registry, home: map<u16, u16>)

  datatype System = System(spine: Ctl, leaves: map<u16, Ctl>)

  datatype Request =
    | AddVC(id: u16, servers: set<u16>)
    | RemoveVC(id: u16)
    | AddServer(serverID: u16, leafID: u16)
    | FailServer(serverID: u16)
    | FailLeaf(leafID: u16)

  // ---------- one controller ----------

  /** NewVC and AddVC: all servers must exist and the ID must be free. */
  function CtlAddVC(ctl: Ctl, id: u16, servers: set<u16>): Ctl {
    if servers <= ctl.home.Keys
    then ctl.(reg := VCRegistry.AddVC(ctl.reg, id, Cluster(servers, Above(servers, ctl.home))))
    else ctl
  }

  function CtlRemoveVC(ctl: Ctl, id: u16): Ctl {
    ctl.(reg := VCRegistry.RemoveVC(ctl.reg, id))
  }

  function CtlAddServer(ctl: Ctl, serverID: u16, leafID: u16): Ctl {
    if serverID in ctl.home then ctl else ctl.(home := ctl.home[serverID := leafID])
  }

  function CtlFailServer(ctl: Ctl, serverID: u16): Ctl {
    if serverID in ctl.home
    then Ctl(DetachServer(ctl.reg, serverID, ctl.home), ctl.home - {serverID})
    else ctl
  }

  function CtlFailLeaf(ctl: Ctl, leafID: u16): Ctl {
    Ctl(DetachLeaf(ctl.reg, leafID, ctl.home), ctl.home - Children(leafID, ctl.home))
  }

  // ---------- the system ----------

  /** The spine handles the request; the leaves concerned get what the spine sends them. A failed
      server is passed on only if it belonged to a cluster. */
  function Serve(s: System, q: Request): System {
    match q
    case AddVC(id, servers) =>
      if id in s.spine.reg.vcs || !(servers <= s.spine.home.Keys) then s
      else System(CtlAddVC(s.spine, id, servers),
                  map l | l in s.leaves ::
                    if l in Above(servers, s.spine.home) then CtlAddVC(s.leaves[l], id, Below(servers, l, s.spine.home))
                    else s.leaves[l])
    case RemoveVC(id) =>
      if id !in s.spine.reg.vcs then s
      else System(CtlRemoveVC(s.spine, id),
                  map l | l in s.leaves ::
                    if l in s.spine.reg.vcs[id].leaves then CtlRemoveVC(s.leaves[l], id) else s.leaves[l])
    case AddServer(serverID, leafID) =>
      if serverID in s.spine.home || leafID !in s.leaves then s
      else System(CtlAddServer(s.spine, serverID, leafID),
                  s.leaves[leafID := CtlAddServer(s.leaves[leafID], serverID, leafID)])
    case FailServer(serverID) =>
      if serverID !in s.spine.home then s
      else
        var leafID := s.spine.home[serverID];
        var told := leafID in s.leaves && exists c :: c in s.spine.reg.vcs && serverID in s.spine.reg.vcs[c].servers;
        System(CtlFailServer(s.spine, serverID),
               if told then s.leaves[leafID := CtlFailServer(s.leaves[leafID], serverID)] else s.leaves)
    case FailLeaf(leafID) =>
      if leafID !in s.leaves then s else System(CtlFailLeaf(s.spine, leafID), s.leaves - {leafID})
  }

  function ServeAll(s: System, qs: seq<Request>): System {
    if qs == [] then s else Serve(ServeAll(s, qs[..|qs|-1]), qs[|qs|-1])
  }

  // ---------- projection ----------

  /** The clusters that use the leaf, each with its servers below the leaf. */
  function Project(vcs: map<u16, Cluster>, leaf: u16, home: map<u16, u16>): map<u16, Cluster> {
    map c | c in vcs && leaf in vcs[c].leaves :: Cluster(Below(vcs[c].servers, leaf, home), {leaf})
  }

  ghost predicate CtlOk(ctl: Ctl) {
    Exact(ctl.reg) && Homed(ctl.reg.vcs, ctl.home)
  }

  /** A leaf's topology has all its servers. It may still have one that failed outside every cluster. */
  ghost predicate LeafOk(l: u16, leaf: Ctl, spine: Ctl) {
    && CtlOk(leaf)
    && (forall s | s in leaf.home :: leaf.home[s] == l)
    && Children(l, spine.home) <= leaf.home.Keys
    && leaf.reg.vcs == Project(spine.reg.vcs, l, spine.home)
  }

  ghost predicate Inv(s: System) {
    && CtlOk(s.spine)
    && forall l | l in s.leaves :: LeafOk(l, s.leaves[l], s.spine)
  }

  // ---------- each request keeps the projection ----------

  lemma AddVCOk(ctl: Ctl, id: u16, servers: set<u16>)
    requires CtlOk(ctl)
    ensures CtlOk(CtlAddVC(ctl, id, servers))
  {
    if servers <= ctl.home.Keys {
      AddVCKeepsExact(ctl.reg, id, Cluster(servers, Above(servers, ctl.home)));
    }
  }

  lemma ProjectOfAdded(vcs: map<u16, Cluster>, id: u16, servers: set<u16>, l: u16, home: map<u16, u16>)
    requires id !in vcs && servers <= home.Keys
    ensures var vc, mine := Cluster(servers, Above(servers, home)), Project(vcs, l, home);
            Project(vcs[id := vc], l, home) ==
            if l in vc.leaves then mine[id := Cluster(Below(servers, l, home), {l})] else mine
  {
  }

  /** The servers below a leaf that the cluster uses are some, and the leaf controller knows them. */
  lemma PushedServersAreKnown(servers: set<u16>, l: u16, leaf: Ctl, spine: Ctl)
    requires LeafOk(l, leaf, spine) && servers <= spine.home.Keys && l in Above(servers, spine.home)
    ensures Below(servers, l, spine.home) <= leaf.home.Keys
    ensures Above(Below(servers, l, spine.home), leaf.home) == {l}
  {
    var below := Below(servers, l, spine.home);
    assert forall x | x in below :: x in Children(l, spine.home);
    var x :| x in servers && spine.home[x] == l;
    assert x in below;
  }

  lemma ProjectAdded(s: System, id: u16, servers: set<u16>, l: u16)
    requires Inv(s) && l in s.leaves && id !in s.spine.reg.vcs && servers <= s.spine.home.Keys
    ensures LeafOk(l, Serve(s, AddVC(id, servers)).leaves[l], Serve(s, AddVC(id, servers)).spine)
  {
    hide Exact, Below, Project, Above, AppendAt;
    ProjectOfAdded(s.spine.reg.vcs, id, servers, l, s.spine.home);
    if l in Above(servers, s.spine.home) {
      PushedServersAreKnown(servers, l, s.leaves[l], s.spine);
      AddVCOk(s.leaves[l], id, Below(servers, l, s.spine.home));
      UnusedAtLeaf(s.spine.reg.vcs, id, l, s.spine.home);
    }
  }

  lemma UnusedAtLeaf(vcs: map<u16, Cluster>, id: u16, l: u16, home: map<u16, u16>)
    requires id !in vcs
    ensures id !in Project(vcs, l, home)
  {
  }

  lemma RemoveVCOk(ctl: Ctl, id: u16)
    requires CtlOk(ctl)
    ensures CtlOk(CtlRemoveVC(ctl, id)) && CtlRemoveVC(ctl, id).reg.vcs == ctl.reg.vcs - {id}
  {
    RemoveVCKeepsExact(ctl.reg, id);
  }

  lemma ProjectOfRemoved(vcs: map<u16, Cluster>, id: u16, l: u16, home: map<u16, u16>)
    ensures Project(vcs - {id}, l, home) == Project(vcs, l, home) - {id}
    ensures id in vcs && l !in vcs[id].leaves ==> id !in Project(vcs, l, home)
  {
  }

  lemma ProjectRemoved(s: System, id: u16, l: u16)
    requires Inv(s) && l in s.leaves && id in s.spine.reg.vcs
    ensures LeafOk(l, Serve(s, RemoveVC(id)).leaves[l], Serve(s, RemoveVC(id)).spine)
  {
    hide Exact, Homed, Project, RemoveAt;
    RemoveVCOk(s.leaves[l], id);
    RemoveVCOk(s.spine, id);
    ProjectOfRemoved(s.spine.reg.vcs, id, l, s.spine.home);
  }

  lemma ProjectInGrown(vcs: map<u16, Cluster>, home: map<u16, u16>, s: u16, l: u16, at: u16)
    requires Homed(vcs, home) && s !in home
    ensures Project(vcs, l, home[s := at]) == Project(vcs, l, home)
  {
    forall c | c in vcs ensures Below(vcs[c].servers, l, home[s := at]) == Below(vcs[c].servers, l, home) {
    }
  }

  lemma ProjectServerAdded(s: System, serverID: u16, leafID: u16, l: u16)
    requires Inv(s) && l in s.leaves && leafID in s.leaves && serverID !in s.spine.home
    ensures LeafOk(l, Serve(s, AddServer(serverID, leafID)).leaves[l], Serve(s, AddServer(serverID, leafID)).spine)
  {
    hide Exact, Homed, Project;
    ProjectInGrown(s.spine.reg.vcs, s.spine.home, serverID, l, leafID);
    if serverID !in s.leaves[l].home {
      HomedGrows(s.leaves[l].reg.vcs, s.leaves[l].home, serverID, leafID);
    }
  }

  lemma HomedGrows(vcs: map<u16, Cluster>, home: map<u16, u16>, s: u16, l: u16)
    requires Homed(vcs, home) && s !in home
    ensures Homed(vcs, home[s := l])
  {
    forall c | c in vcs ensures Above(vcs[c].servers, home[s := l]) == Above(vcs[c].servers, home) {
    }
  }

  /** Servers elsewhere do not matter to a leaf. */
  lemma ProjectElsewhere(vcs: map<u16, Cluster>, gone: set<u16>, home: map<u16, u16>, l: u16)
    requires Homed(vcs, home) && gone <= home.Keys && forall s | s in gone :: home[s] != l
    ensures Project(VCsWithout(vcs, gone, home), l, home - gone) == Project(vcs, l, home)
  {
    var less := VCsWithout(vcs, gone, home);
    forall c | c in vcs && l in vcs[c].leaves
      ensures c in less && l in less[c].leaves &&
              Below(less[c].servers, l, home - gone) == Below(vcs[c].servers, l, home)
    {
      var s :| s in vcs[c].servers && home[s] == l;
      assert s in vcs[c].servers - gone;
      if vcs[c].servers * gone == {} {
        assert forall x | x in vcs[c].servers && x in gone :: x in vcs[c].servers * gone;
      } else {
        assert less[c].leaves == Above(vcs[c].servers - gone, home);
      }
    }
    forall c | c in less && l in less[c].leaves ensures l in vcs[c].leaves {
    }
  }

  /** At the leaf of the failed server both sides lose it. */
  lemma ProjectHere(vcs: map<u16, Cluster>, s: u16, home: map<u16, u16>, l: u16, leafHome: map<u16, u16>)
    requires Homed(vcs, home) && s in home && home[s] == l
    requires Homed(Project(vcs, l, home), leafHome) && forall x | x in leafHome :: leafHome[x] == l
    ensures VCsWithout(Project(vcs, l, home), {s}, leafHome) == Project(VCsWithout(vcs, {s}, home), l, home - {s})
  {
    hide LoseServer;
    var mine, less := Project(vcs, l, home), VCsWithout(vcs, {s}, home);
    var a, b := VCsWithout(mine, {s}, leafHome), Project(less, l, home - {s});
    forall c | c in vcs && l in vcs[c].leaves
      ensures c in a <==> c in b
      ensures c in a ==> a[c] == b[c]
    {
      HereIn(vcs[c], s, home, l);
      assert mine[c].servers * {s} == {} <==> s !in mine[c].servers by {
        assert s in mine[c].servers ==> s in mine[c].servers * {s};
      }
      assert vcs[c].servers * {s} == {} <==> s !in vcs[c].servers by {
        assert s in vcs[c].servers ==> s in vcs[c].servers * {s};
      }
      var rest := mine[c].servers - {s};
      assert forall x | x in rest :: leafHome[x] == l;
      assert rest != {} ==> Above(rest, leafHome) == {l};
    }
    forall c | c in b ensures c in vcs && l in vcs[c].leaves {
    }
  }

  lemma HereIn(vc: Cluster, s: u16, home: map<u16, u16>, l: u16)
    requires vc.servers <= home.Keys && s in home && home[s] == l
    ensures Below(vc.servers - {s}, l, home - {s}) == Below(vc.servers, l, home) - {s}
    ensures Below(vc.servers, l, home) - {s} != {} <==> l in Above(vc.servers - {s}, home)
  {
    if l in Above(vc.servers - {s}, home) {
      var x :| x in vc.servers - {s} && home[x] == l;
      assert x in Below(vc.servers, l, home) - {s};
    }
    if Below(vc.servers, l, home) - {s} != {} {
      var x :| x in Below(vc.servers, l, home) - {s};
      assert home[x] == l && x in vc.servers - {s};
    }
  }

  lemma FailServerOk(ctl: Ctl, s: u16)
    requires CtlOk(ctl) && s in ctl.home
    ensures CtlOk(CtlFailServer(ctl, s))
    ensures CtlFailServer(ctl, s).reg.vcs == VCsWithout(ctl.reg.vcs, {s}, ctl.home)
  {
    DetachServerKeepsExact(ctl.reg, s, ctl.home);
    DetachServerVCs(ctl.reg, s, ctl.home);
  }

  /** A server outside every cluster leaves no trace in the registry. */
  lemma WithoutNonMember(vcs: map<u16, Cluster>, s: u16, home: map<u16, u16>)
    requires Homed(vcs, home) && forall c | c in vcs :: s !in vcs[c].servers
    ensures VCsWithout(vcs, {s}, home) == vcs
  {
  }

  lemma ProjectServerFailed(s: System, serverID: u16, l: u16)
    requires Inv(s) && l in s.leaves && serverID in s.spine.home
    ensures LeafOk(l, Serve(s, FailServer(serverID)).leaves[l], Serve(s, FailServer(serverID)).spine)
  {
    hide Exact, Homed, Project, VCsWithout, DetachServer;
    var vcs, home, leaf := s.spine.reg.vcs, s.spine.home, s.leaves[l];
    FailServerOk(s.spine, serverID);
    if home[serverID] != l {
      ProjectElsewhere(vcs, {serverID}, home, l);
    } else {
      ProjectHere(vcs, serverID, home, l, leaf.home);
      assert serverID in Children(l, home);
      FailServerOk(leaf, serverID);
      if forall c | c in vcs :: serverID !in vcs[c].servers {
        NotInProjection(vcs, serverID, l, home);
        WithoutNonMember(leaf.reg.vcs, serverID, leaf.home);
      }
    }
  }

  lemma NotInProjection(vcs: map<u16, Cluster>, s: u16, l: u16, home: map<u16, u16>)
    requires forall c | c in vcs :: s !in vcs[c].servers
    ensures forall c | c in Project(vcs, l, home) :: s !in Project(vcs, l, home)[c].servers
  {
  }

  lemma FailLeafOk(ctl: Ctl, leafID: u16)
    requires CtlOk(ctl)
    ensures CtlOk(CtlFailLeaf(ctl, leafID))
    ensures CtlFailLeaf(ctl, leafID).reg.vcs == VCsWithout(ctl.reg.vcs, Children(leafID, ctl.home), ctl.home)
  {
    DetachLeafKeepsExact(ctl.reg, leafID, ctl.home);
    DetachLeafVCs(ctl.reg, leafID, ctl.home);
  }

  lemma ProjectLeafFailed(s: System, leafID: u16, l: u16)
    requires Inv(s) && l in s.leaves && l != leafID && leafID in s.leaves
    ensures LeafOk(l, Serve(s, FailLeaf(leafID)).leaves[l], Serve(s, FailLeaf(leafID)).spine)
  {
    hide Exact, Homed, Project, VCsWithout, DetachLeaf;
    FailLeafOk(s.spine, leafID);
    ProjectElsewhere(s.spine.reg.vcs, Children(leafID, s.spine.home), s.spine.home, l);
  }

  lemma ServeKeepsInv(s: System, q: Request)
    requires Inv(s)
    ensures Inv(Serve(s, q))
  {
    hide Exact, Homed, Project, VCsWithout, DetachServer, DetachLeaf, LeafOk;
    match q
    case AddVC(id, servers) =>
      AddVCOk(s.spine, id, servers);
      if id !in s.spine.reg.vcs && servers <= s.spine.home.Keys {
        forall l | l in s.leaves { ProjectAdded(s, id, servers, l); }
      }
    case RemoveVC(id) =>
      RemoveVCOk(s.spine, id);
      if id in s.spine.reg.vcs {
        forall l | l in s.leaves { ProjectRemoved(s, id, l); }
      }
    case AddServer(serverID, leafID) =>
      if serverID !in s.spine.home && leafID in s.leaves {
        HomedGrows(s.spine.reg.vcs, s.spine.home, serverID, leafID);
        forall l | l in s.leaves { ProjectServerAdded(s, serverID, leafID, l); }
      }
    case FailServer(serverID) =>
      if serverID in s.spine.home {
        FailServerOk(s.spine, serverID);
        forall l | l in s.leaves { ProjectServerFailed(s, serverID, l); }
      }
    case FailLeaf(leafID) =>
      if leafID in s.leaves {
        FailLeafOk(s.spine, leafID);
        forall l | l in s.leaves && l != leafID { ProjectLeafFailed(s, leafID, l); }
      }
  }

  /** The projection theorem, over any run. */
  lemma {:induction false} LeavesHoldProjections(s: System, qs: seq<Request>)
    requires Inv(s)
    ensures var now := ServeAll(s, qs);
            forall l, c | l in now.leaves ::
              && (c in now.leaves[l].reg.vcs <==> c in now.spine.reg.vcs && l in now.spine.reg.vcs[c].leaves)
              && (c in now.leaves[l].reg.vcs ==>
                    now.leaves[l].reg.vcs[c].servers == Below(now.spine.reg.vcs[c].servers, l, now.spine.home))
    ensures Inv(ServeAll(s, qs))
  {
    if qs != [] {
      LeavesHoldProjections(s, qs[..|qs|-1]);
      ServeKeepsInv(ServeAll(s, qs[..|qs|-1]), qs[|qs|-1]);
    }
  }

  const NO_CLUSTERS := Registry(map[], map[], map[])

  /** Controllers start in agreement: no clusters, and each leaf knows the servers below it. */
  lemma StartIsOk(home: map<u16, u16>, leafIDs: set<u16>)
    ensures Inv(System(Ctl(NO_CLUSTERS, home),
                       map l | l in leafIDs :: Ctl(NO_CLUSTERS, map s | s in Children(l, home) :: l)))
  {
  }

  // ---------- the broadcast and the pull ----------

  /** A leaf that pulls its clusters names exactly those it would have been pushed. */
  lemma PulledIsProjection(ctl: Ctl, l: u16)
    requires CtlOk(ctl)
    ensures NoDup(ListAt(ctl.reg.leafVCs, l))
    ensures forall c :: c in ListAt(ctl.reg.leafVCs, l) <==> c in Project(ctl.reg.vcs, l, ctl.home)
  {
    UsersOfLeaf(ctl.reg, l);
  }

  /** What is sent to the leaves of a new cluster is a partition of its servers. */
  lemma BroadcastIsPartition(servers: set<u16>, home: map<u16, u16>)
    requires servers <= home.Keys
    ensures forall l | l in Above(servers, home) :: Below(servers, l, home) != {}
    ensures forall l, m | l != m :: Below(servers, l, home) !! Below(servers, m, home)
    ensures (set l, s | l in Above(servers, home) && s in Below(servers, l, home) :: s) == servers
  {
    forall l | l in Above(servers, home) ensures Below(servers, l, home) != {} {
      var s :| s in servers && home[s] == l;
      assert s in Below(servers, l, home);
    }
    forall s | s in servers
      ensures s in set l, t | l in Above(servers, home) && t in Below(servers, l, home) :: t
    {
      assert home[s] in Above(servers, home) && s in Below(servers, home[s], home);
    }
  }
}
