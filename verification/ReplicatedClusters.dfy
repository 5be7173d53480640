/** The registry of central (core/vcManager.go) and the clusters of a spine that follows what central
    announces. */
module ReplicatedClusters {
  import opened Words
  import opened TopologySpec
  import opened WorkerRanges
  import opened SpineContents
  import opened SpineShape
  import opened Replication
  import opened CentralLog
  import opened CentralRuns
  import opened VCChannel
  import VCRegistry

  // ---------- what is announced is causal, and misses only failures ----------

  lemma SameNames(c0: seq<LeafInfo>, a: seq<Msg>, b: seq<Msg>, m: Msg)
    requires NewLeaves(a) == NewLeaves(b) && NewServers(a) == NewServers(b)
    ensures NamesKnown(c0, a, m) <==> NamesKnown(c0, b, m)
  {
  }

  lemma {:induction false} LogIsCausal(ls: seq<LeafRec>, rs: seq<Request>)
    requires Causal(StripAll(ls), ServeAll(ls, rs).done)
    ensures Causal(StripAll(ls), ServeAll(ls, rs).log)
  {
    if rs != [] {
      hide Causal, NamesKnown, Accepts, StripAll, NewLeaves, NewServers, FailedLeaves, FailedServers;
      var c, r := ServeAll(ls, rs[..|rs|-1]), rs[|rs|-1];
      CausalSnoc(StripAll(ls), c.done, r.m);
      CausalSnoc(StripAll(ls), c.log, r.m);
      LogChannels(ls, rs[..|rs|-1]);
      SameNames(StripAll(ls), c.done, c.log, r.m);
      LogIsCausal(ls, rs[..|rs|-1]);
    }
  }

  /** A spine that has received the log has central's leaves, with those servers more that failed without
      an announcement. */
  lemma LogLeaves(ls: seq<LeafRec>, rs: seq<Request>)
    requires Shape(ls)
    requires var ms := ServeAll(ls, rs).done; FreshAdds(StripAll(ls), NewLeaves(ms), NewServers(ms))
    ensures var c := ServeAll(ls, rs); var told := Run(ls, c.log);
            && RunOk(ls, c.log) && Shape(c.leaves) && Shape(told) && |told| == |c.leaves|
            && forall i | 0 <= i < |told| ::
                 told[i].id == c.leaves[i].id && Ids(c.leaves[i]) == Ids(told[i]) - FailedServers(c.done)
  {
    var c, c0 := ServeAll(ls, rs), StripAll(ls);
    var told := Run(ls, c.log);
    CentralIsCausal(ls, rs);
    CentralIsRunOfDone(ls, rs);
    LogIsCausal(ls, rs);
    LogChannels(ls, rs);
    RunShape(ls, c.done);
    RunShape(ls, c.log);
    RunIsOutcome(ls, c.done);
    RunIsOutcome(ls, c.log);
    var left := KeepLeaves(Everyone(c0, NewLeaves(c.done)), FailedLeaves(c.done));
    assert |told| == |StripAll(told)| == |left| == |StripAll(c.leaves)| == |c.leaves|;
    forall i | 0 <= i < |told|
      ensures told[i].id == c.leaves[i].id && Ids(c.leaves[i]) == Ids(told[i]) - FailedServers(c.done)
    {
      var ever := EverUnder(left[i], NewServers(c.done));
      assert Strip(told[i]) == StripAll(told)[i] && Strip(c.leaves[i]) == StripAll(c.leaves)[i];
      KeptIdsOf(told[i], ever, FailedServers(c.log));
      KeptIdsOf(c.leaves[i], ever, FailedServers(c.done));
    }
  }

  lemma KeptIdsOf(l: LeafRec, ever: seq<ServerInfo>, gone: set<u16>)
    requires Contents(l.servers) == Keep(ever, gone)
    ensures Ids(l) == (set s | s in ever :: s.id) - gone
  {
    KeepMembers(ever, gone);
    forall id ensures id in Ids(l) <==> id in (set s | s in ever :: s.id) - gone {
      IdsOfContents(l, id);
    }
  }

  // ---------- homes ----------

  lemma HomeAt(ls: seq<LeafRec>)
    requires Shape(ls)
    ensures Home(ls).Keys == ServersBelow(ls)
    ensures forall i, s | 0 <= i < |ls| && s in Ids(ls[i]) :: s in Home(ls) && Home(ls)[s] == ls[i].id
  {
    hide ServersBelow, HasServer;
    forall i, s | 0 <= i < |ls| && s in Ids(ls[i]) ensures s in Home(ls) && Home(ls)[s] == ls[i].id {
      HasServerIds(ls[i], s);
      assert AnyHasServer(ls, s);
      var j :| 0 <= j < |ls| && HasServer(ls[j], s) && LeafOf(ls, s) == ls[j].id;
      HasServerIds(ls[j], s);
    }
  }

  /** The leaf is in the list, with at least the given servers. */
  ghost predicate HasPlace(ls: seq<LeafRec>, l: LeafRec) {
    exists j :: 0 <= j < |ls| && ls[j].id == l.id && Ids(l) <= Ids(ls[j])
  }

  /** Servers that are below one of two trees and the other, and keep their leaf, keep their home. */
  lemma HomeKept(less: seq<LeafRec>, more: seq<LeafRec>)
    requires Shape(less) && Shape(more)
    requires forall i | 0 <= i < |less| :: HasPlace(more, less[i])
    ensures forall s | s in Home(less) :: s in Home(more) && Home(more)[s] == Home(less)[s]
  {
    HomeAt(less);
    HomeAt(more);
    forall s | s in Home(less) ensures s in Home(more) && Home(more)[s] == Home(less)[s] {
      AnyHasServerIds(less, s);
      var i :| 0 <= i < |less| && s in Ids(less[i]);
      var j :| 0 <= j < |more| && more[j].id == less[i].id && Ids(less[i]) <= Ids(more[j]);
    }
  }

  lemma ChildrenAreBelow(ls: seq<LeafRec>, leafID: u16)
    requires Shape(ls)
    ensures VCRegistry.Children(leafID, Home(ls)) == Below(ls, leafID)
  {
    hide Home;
    HomeAt(ls);
    forall s ensures s in VCRegistry.Children(leafID, Home(ls)) <==> s in Below(ls, leafID) {
      AnyHasServerIds(ls, s);
      if s in Home(ls) && Home(ls)[s] == leafID {
        var i :| 0 <= i < |ls| && s in Ids(ls[i]);
        assert i == PositionOf(ls, leafID);
      }
    }
  }

  lemma MembersWithout(vcs: map<u16, VCRegistry.Cluster>, gone: set<u16>, home: map<u16, u16>)
    requires VCRegistry.Homed(vcs, home)
    ensures VCRegistry.ServersOf(VCRegistry.VCsWithout(vcs, gone, home)) == Without(VCRegistry.ServersOf(vcs), gone)
  {
    var now := VCRegistry.VCsWithout(vcs, gone, home);
    forall c | c in vcs
      ensures c in now <==> c in Without(VCRegistry.ServersOf(vcs), gone)
      ensures c in now ==> now[c].servers == vcs[c].servers - gone
    {
      assert vcs[c].servers * gone == {} <==> forall s | s in vcs[c].servers :: s !in gone by {
        assert forall s | s in vcs[c].servers && s in gone :: s in vcs[c].servers * gone;
      }
    }
  }

  lemma HomedStill(vcs: map<u16, VCRegistry.Cluster>, home: map<u16, u16>, more: map<u16, u16>)
    requires VCRegistry.Homed(vcs, home) && forall s | s in home :: s in more && more[s] == home[s]
    ensures VCRegistry.Homed(vcs, more)
  {
  }

  /** A server that stays below the spine keeps its home. */
  lemma HomeAfter(ls: seq<LeafRec>, m: Msg)
    requires Shape(ls)
    ensures Shape(Apply(ls, m))
    ensures forall s | s in Home(ls) && s in ServersBelow(Apply(ls, m)) ::
              s in Home(Apply(ls, m)) && Home(Apply(ls, m))[s] == Home(ls)[s]
  {
    hide AddLeaf, AddServer, RemoveServer, RemoveLeaf, Home, Shape;
    var now := Apply(ls, m);
    ServersAfter(ls, m);
    HomeAt(now);
    match m
    case AddLeafMsg(leaf) => AddLeafHome(ls, leaf);
    case AddServerMsg(server, parent) => AddServerHome(ls, server, parent);
    case FailLeafMsg(leafID) => RemoveLeafHome(ls, leafID);
    case FailServerMsg(serverID) => RemoveServerHome(ls, serverID);
    case _ =>
  }

  lemma AddLeafHome(ls: seq<LeafRec>, leaf: LeafInfo)
    requires Shape(ls)
    ensures Shape(AddLeaf(ls, leaf))
    ensures forall s | s in Home(ls) :: s in Home(AddLeaf(ls, leaf)) && Home(AddLeaf(ls, leaf))[s] == Home(ls)[s]
  {
    hide Home;
    if !HasLeaf(ls, leaf.id) && !AddressTaken(ls, leaf) {
      var now := AddLeaf(ls, leaf);
      AddLeafShape(ls, leaf);
      forall i | 0 <= i < |ls| ensures HasPlace(now, ls[i]) {
        assert now[i] == ls[i];
      }
      HomeKept(ls, now);
    }
  }

  lemma AddServerHome(ls: seq<LeafRec>, server: ServerInfo, parent: u16)
    requires Shape(ls)
    ensures Shape(AddServer(ls, server, parent))
    ensures forall s | s in Home(ls) ::
              s in Home(AddServer(ls, server, parent)) && Home(AddServer(ls, server, parent))[s] == Home(ls)[s]
  {
    hide Home;
    if HasLeaf(ls, parent) && !AnyHasServer(ls, server.id) {
      var now := AddServer(ls, server, parent);
      AddServerShape(ls, server, parent);
      forall i | 0 <= i < |ls| ensures HasPlace(now, ls[i]) {
        assert now[i].id == ls[i].id && Ids(ls[i]) <= Ids(now[i]);
      }
      HomeKept(ls, now);
    }
  }

  lemma RemoveServerHome(ls: seq<LeafRec>, serverID: u16)
    requires Shape(ls)
    ensures Shape(RemoveServer(ls, serverID))
    ensures forall s | s in Home(RemoveServer(ls, serverID)) ::
              s in Home(ls) && Home(RemoveServer(ls, serverID))[s] == Home(ls)[s]
  {
    hide Home;
    var now := RemoveServer(ls, serverID);
    RemoveServerShape(ls, serverID);
    forall i | 0 <= i < |now| ensures HasPlace(ls, now[i]) {
      assert ls[i].id == now[i].id && Ids(now[i]) <= Ids(ls[i]);
    }
    HomeKept(now, ls);
  }

  lemma RemoveLeafHome(ls: seq<LeafRec>, leafID: u16)
    requires Shape(ls)
    ensures Shape(RemoveLeaf(ls, leafID))
    ensures forall s | s in Home(RemoveLeaf(ls, leafID)) ::
            s in Home(ls) && Home(RemoveLeaf(ls, leafID))[s] == Home(ls)[s]
  {
    hide Home;
    if HasLeaf(ls, leafID) {
      var now := RemoveLeaf(ls, leafID);
      RemoveLeafShape(ls, leafID);
      forall i | 0 <= i < |now| ensures HasPlace(ls, now[i]) {
        var j := Skip(PositionOf(ls, leafID), i);
        assert now[i] == ls[j].(index := i);
        assert Ids(now[i]) == Ids(ls[j]);
      }
      HomeKept(now, ls);
    }
  }

  // ---------- one request ----------

  /** Central's clusters that name the spine, by their servers. */
  ghost function Here(w: World): Clusters {
    Some(VCRegistry.ServersOf(w.reg.vcs), w.here)
  }

  function Some(vcs: Clusters, ids: set<u16>): Clusters {
    map c | c in vcs && c in ids :: vcs[c]
  }

  /** The registry is exact, and those of its clusters that name the spine are the clusters of a spine that
      has received the log. */
  ghost predicate Mirrors(ls: seq<LeafRec>, w: World) {
    && Shape(w.c.leaves) && VCRegistry.Exact(w.reg) && VCRegistry.Homed(w.reg.vcs, Home(w.c.leaves))
    && RunVC(ls, w.c.log) == Here(w) && w.here <= w.reg.vcs.Keys
    && AllAccepted(ls, w.c.log)
  }

  lemma LeafFails(reg: VCRegistry.Registry, ls: seq<LeafRec>, id: u16)
    requires Shape(ls) && VCRegistry.Exact(reg) && VCRegistry.Homed(reg.vcs, Home(ls))
    ensures var now := VCRegistry.DetachLeaf(reg, id, Home(ls));
            && VCRegistry.Exact(now) && VCRegistry.Homed(now.vcs, Home(Apply(ls, FailLeafMsg(id))))
            && VCRegistry.ServersOf(now.vcs) == Without(VCRegistry.ServersOf(reg.vcs), Below(ls, id))
  {
    hide VCRegistry.DetachLeaf, VCRegistry.Exact, Home, Apply, Shape, Below, Without;
    hide VCRegistry.VCsWithout, VCRegistry.ServersOf, VCRegistry.Children;
    var home, m := Home(ls), FailLeafMsg(id);
    ServersAfter(ls, m);
    HomeAfter(ls, m);
    HomeAt(ls);
    ChildrenAreBelow(ls, id);
    VCRegistry.DetachLeafVCs(reg, id, home);
    VCRegistry.DetachLeafKeepsExact(reg, id, home);
    MembersWithout(reg.vcs, Below(ls, id), home);
    HomedStill(VCRegistry.DetachLeaf(reg, id, home).vcs, home - Below(ls, id), Home(Apply(ls, m)));
  }

  lemma ServerFails(reg: VCRegistry.Registry, ls: seq<LeafRec>, id: u16)
    requires Shape(ls) && VCRegistry.Exact(reg) && VCRegistry.Homed(reg.vcs, Home(ls))
    ensures var now := VCRegistry.DetachServer(reg, id, Home(ls));
            && VCRegistry.Exact(now) && VCRegistry.Homed(now.vcs, Home(Apply(ls, FailServerMsg(id))))
            && VCRegistry.ServersOf(now.vcs) == Without(VCRegistry.ServersOf(reg.vcs), {id})
  {
    hide VCRegistry.DetachServer, VCRegistry.Exact, Home, Apply, Shape, Without;
    hide VCRegistry.VCsWithout, VCRegistry.ServersOf;
    var home, m := Home(ls), FailServerMsg(id);
    ServersAfter(ls, m);
    HomeAfter(ls, m);
    HomeAt(ls);
    VCRegistry.DetachServerVCs(reg, id, home);
    VCRegistry.DetachServerKeepsExact(reg, id, home);
    MembersWithout(reg.vcs, {id}, home);
    HomedStill(VCRegistry.DetachServer(reg, id, home).vcs, home - {id}, Home(Apply(ls, m)));
  }

  /** Any other message leaves the servers where they are. */
  lemma NobodyFails(reg: VCRegistry.Registry, ls: seq<LeafRec>, m: Msg)
    requires Shape(ls) && VCRegistry.Homed(reg.vcs, Home(ls)) && !m.FailLeafMsg? && !m.FailServerMsg?
    ensures VCRegistry.Homed(reg.vcs, Home(Apply(ls, m)))
    ensures Home(Apply(ls, m)).Keys >= ServersBelow(ls) == Home(ls).Keys
    ensures forall s | s in Home(ls) :: s in Home(Apply(ls, m)) && Home(Apply(ls, m))[s] == Home(ls)[s]
  {
    hide Home, Apply, Shape, VCRegistry.Homed;
    ServersAfter(ls, m);
    HomeAfter(ls, m);
    HomeAt(ls);
    HomedStill(reg.vcs, Home(ls), Home(Apply(ls, m)));
  }

  lemma ClusterCreated(reg: VCRegistry.Registry, home: map<u16, u16>, more: map<u16, u16>, id: u16, servers: set<u16>)
    requires VCRegistry.Exact(reg) && VCRegistry.Homed(reg.vcs, more) && id !in reg.vcs
    requires servers <= home.Keys && forall s | s in home :: s in more && more[s] == home[s]
    ensures var now := VCRegistry.AddVC(reg, id, VCRegistry.Cluster(servers, VCRegistry.Above(servers, home)));
            && VCRegistry.Exact(now) && VCRegistry.Homed(now.vcs, more)
            && VCRegistry.ServersOf(now.vcs) == VCRegistry.ServersOf(reg.vcs)[id := servers]
  {
    VCRegistry.AddVCKeepsExact(reg, id, VCRegistry.Cluster(servers, VCRegistry.Above(servers, home)));
  }

  lemma ClusterRemoved(reg: VCRegistry.Registry, home: map<u16, u16>, id: u16)
    requires VCRegistry.Exact(reg) && VCRegistry.Homed(reg.vcs, home)
    ensures var now := VCRegistry.RemoveVC(reg, id);
            && VCRegistry.Exact(now) && VCRegistry.Homed(now.vcs, home)
            && VCRegistry.ServersOf(now.vcs) == VCRegistry.ServersOf(reg.vcs) - {id}
  {
    VCRegistry.RemoveVCKeepsExact(reg, id);
  }

  /** The registry stays exact, and central's own clusters change as a spine's would. */
  lemma RegistryStep(w: World, m: Msg, q: Client)
    requires Shape(w.c.leaves) && VCRegistry.Exact(w.reg) && VCRegistry.Homed(w.reg.vcs, Home(w.c.leaves))
    requires RequestOf(w, q) != [] && RequestOf(w, q)[0].m == m && Accepts(w.c.leaves, m)
    ensures VCRegistry.Exact(RegAfter(w, q)) && VCRegistry.Homed(RegAfter(w, q).vcs, Home(Apply(w.c.leaves, m)))
    ensures VCRegistry.ServersOf(RegAfter(w, q).vcs) == ApplyVC(VCRegistry.ServersOf(w.reg.vcs), w.c.leaves, m)
  {
    hide VCRegistry.DetachServer, VCRegistry.DetachLeaf, VCRegistry.AddVC, VCRegistry.RemoveVC;
    hide VCRegistry.Exact, VCRegistry.Homed, Home, Apply, Shape, Below, Without, AnyHasServer, HasLeaf;
    var ls, home := w.c.leaves, Home(w.c.leaves);
    if !m.FailLeafMsg? && !m.FailServerMsg? {
      NobodyFails(w.reg, ls, m);
    }
    match q
    case AddLeafReq(_) =>
    case AddServerReq(_, _) =>
    case FailLeafReq(id) => LeafFails(w.reg, ls, id);
    case FailServerReq(id) => ServerFails(w.reg, ls, id);
    case AddVCReq(id, servers, _) => ClusterCreated(w.reg, home, Home(Apply(ls, m)), id, servers);
    case RemoveVCReq(id) => ClusterRemoved(w.reg, Home(Apply(ls, m)), id);
  }

  /** The leaves of a spine that was told everything but some failures. */
  ghost predicate Ahead(told: seq<LeafRec>, ls: seq<LeafRec>, untold: set<u16>) {
    && Shape(told) && Shape(ls) && |told| == |ls|
    && forall i | 0 <= i < |ls| :: told[i].id == ls[i].id && Ids(ls[i]) == Ids(told[i]) - untold
  }

  lemma AheadBelow(told: seq<LeafRec>, ls: seq<LeafRec>, untold: set<u16>)
    requires Ahead(told, ls, untold)
    ensures ServersBelow(ls) == ServersBelow(told) - untold
    ensures forall id :: Below(ls, id) == Below(told, id) - untold
  {
    forall s ensures s in ServersBelow(ls) <==> s in ServersBelow(told) - untold {
      AnyHasServerIds(ls, s);
      AnyHasServerIds(told, s);
    }
    SamePlaces(told, ls);
    forall id ensures Below(ls, id) == Below(told, id) - untold {
      if HasLeaf(ls, id) {
        assert PositionOf(ls, id) == PositionOf(told, id);
      }
    }
  }

  ghost predicate MembersBelow(vcs: Clusters, ls: seq<LeafRec>) {
    forall c | c in vcs :: vcs[c] <= ServersBelow(ls)
  }

  lemma WithoutStrangers(vcs: Clusters, a: set<u16>, b: set<u16>)
    requires forall c, s | c in vcs && s in vcs[c] :: s in a <==> s in b
    ensures Without(vcs, a) == Without(vcs, b)
  {
    forall c | c in vcs ensures vcs[c] - a == vcs[c] - b && (vcs[c] !! a <==> vcs[c] !! b) {
      assert forall s | s in vcs[c] :: s in a <==> s in b;
    }
  }

  /** What central announces has the same effect on the clusters at the spine as at central. */
  lemma SameEffect(vcs: Clusters, told: seq<LeafRec>, ls: seq<LeafRec>, untold: set<u16>, m: Msg)
    requires Ahead(told, ls, untold) && MembersBelow(vcs, ls) && Accepts(ls, m)
    requires m.AddVCMsg? ==> m.servers <= ServersBelow(ls)
    ensures ApplyVC(vcs, told, m) == ApplyVC(vcs, ls, m)
  {
    hide Without, Below, Ahead;
    AheadBelow(told, ls, untold);
    if m.FailLeafMsg? {
      forall c, s | c in vcs && s in vcs[c] ensures s in Below(told, m.leafID) <==> s in Below(ls, m.leafID) {
        assert s in ServersBelow(ls);
      }
      WithoutStrangers(vcs, Below(told, m.leafID), Below(ls, m.leafID));
    }
  }

  /** And what it does not announce has no effect. */
  lemma NoEffect(w: World, id: u16)
    requires !InSomeVC(w.reg, id)
    ensures Without(VCRegistry.ServersOf(w.reg.vcs), {id}) == VCRegistry.ServersOf(w.reg.vcs)
  {
    var vcs := VCRegistry.ServersOf(w.reg.vcs);
    forall c | c in vcs ensures vcs[c] !! {id} && vcs[c] - {id} == vcs[c] {
      assert id !in w.reg.vcs[c].servers;
    }
  }

  lemma OneMore(ls: seq<LeafRec>, log: seq<Msg>, m: Msg)
    ensures RunVC(ls, log + [m]) == ApplyVC(RunVC(ls, log), Run(ls, log), m)
    ensures AllAccepted(ls, log) &&
            (m.AddVCMsg? ==> m.servers <= ServersBelow(Run(ls, log)) && m.clusterID !in RunVC(ls, log)) ==>
              AllAccepted(ls, log + [m])
  {
    var all := log + [m];
    RunOneMore(ls, log, m);
    forall k | 0 <= k < |log| ensures all[..k] == log[..k] && all[k] == log[k] {
    }
  }

  /** Losses are the same on some of the clusters. */
  lemma SomeWithout(vcs: Clusters, gone: set<u16>, here: set<u16>)
    ensures Some(Without(vcs, gone), here * Without(vcs, gone).Keys) == Without(Some(vcs, here), gone)
  {
  }

  /** What is announced changes the clusters that name the spine as it changes them all. */
  lemma ToldStep(w: World, m: Msg, q: Client)
    requires RequestOf(w, q) != [] && RequestOf(w, q)[0].m == m && Accepts(w.c.leaves, m)
    requires w.here <= w.reg.vcs.Keys && Announces(RequestOf(w, q)[0])
    requires VCRegistry.ServersOf(RegAfter(w, q).vcs) == ApplyVC(VCRegistry.ServersOf(w.reg.vcs), w.c.leaves, m)
    ensures Here(Handle(w, q)) == ApplyVC(Here(w), w.c.leaves, m)
    ensures HereAfter(w, q) <= RegAfter(w, q).vcs.Keys
  {
    hide Without, Below, RegAfter;
    var vcs := VCRegistry.ServersOf(w.reg.vcs);
    assert RegAfter(w, q).vcs.Keys == VCRegistry.ServersOf(RegAfter(w, q).vcs).Keys;
    match m
    case FailLeafMsg(id) =>
      SomeWithout(vcs, Below(w.c.leaves, id), w.here);
      assert HereAfter(w, q) == w.here * Without(vcs, Below(w.c.leaves, id)).Keys;
    case FailServerMsg(id) =>
      SomeWithout(vcs, {id}, w.here);
      assert HereAfter(w, q) == w.here * Without(vcs, {id}).Keys;
    case AddVCMsg(id, servers) => assert HereAfter(w, q) == w.here + {id};
    case RemoveVCMsg(id) => assert HereAfter(w, q) == w.here - {id};
    case _ => assert HereAfter(w, q) == w.here;
  }

  /** What is not announced leaves them alone. */
  lemma UntoldStep(w: World, m: Msg, q: Client)
    requires RequestOf(w, q) != [] && RequestOf(w, q)[0].m == m && Accepts(w.c.leaves, m)
    requires w.here <= w.reg.vcs.Keys && !Announces(RequestOf(w, q)[0])
    requires VCRegistry.ServersOf(RegAfter(w, q).vcs) == ApplyVC(VCRegistry.ServersOf(w.reg.vcs), w.c.leaves, m)
    ensures Here(Handle(w, q)) == Here(w) && HereAfter(w, q) <= RegAfter(w, q).vcs.Keys
  {
    hide Without, Below, RegAfter;
    assert RegAfter(w, q).vcs.Keys == VCRegistry.ServersOf(RegAfter(w, q).vcs).Keys;
    if m.FailServerMsg? {
      NoEffect(w, m.serverID);
    }
    assert HereAfter(w, q) == w.here;
  }

  /** One accepted request. */
  lemma AcceptedStep(ls: seq<LeafRec>, w: World, told: seq<LeafRec>, untold: set<u16>, m: Msg, q: Client)
    requires Mirrors(ls, w) && told == Run(ls, w.c.log) && Ahead(told, w.c.leaves, untold)
    requires RequestOf(w, q) != [] && RequestOf(w, q)[0].m == m && Accepts(w.c.leaves, m)
    ensures Mirrors(ls, Handle(w, q))
  {
    hide Ahead, VCRegistry.Exact, RegAfter, Home, ApplyVC, AllAccepted, Apply, AnyHasServer, Shape, Here, HereAfter;
    RegistryStep(w, m, q);
    ServersAfter(w.c.leaves, m);
    HomeAt(w.c.leaves);
    HereIsBelow(w);
    if Announces(RequestOf(w, q)[0]) {
      AheadBelow(told, w.c.leaves, untold);
      ToldStep(w, m, q);
      OneMore(ls, w.c.log, m);
      SameEffect(Here(w), told, w.c.leaves, untold, m);
    } else {
      UntoldStep(w, m, q);
    }
  }

  lemma HereIsBelow(w: World)
    requires VCRegistry.Homed(w.reg.vcs, Home(w.c.leaves)) && Home(w.c.leaves).Keys == ServersBelow(w.c.leaves)
    ensures MembersBelow(Here(w), w.c.leaves) && forall c | c in Here(w) :: c in w.reg.vcs
  {
  }

  // ---------- whole runs ----------

  const NO_CLUSTERS := VCRegistry.Registry(map[], map[], map[])

  lemma RejectedStep(ls: seq<LeafRec>, w: World, q: Client)
    requires Mirrors(ls, w)
    requires RequestOf(w, q) == [] || !Accepts(w.c.leaves, RequestOf(w, q)[0].m)
    ensures Handle(w, q) == w
  {
    hide Home, VCRegistry.DetachLeaf, VCRegistry.DetachServer, VCRegistry.AddVC, AnyHasServer, HasLeaf, AddressTaken;
    hide Shape, VCRegistry.Exact, VCRegistry.Homed, AllAccepted, Here, RunVC;
    assert HereAfter(w, q) == w.here;
  }

  /** Central's registry is exact throughout, and a spine that has received what was announced, in the
      order of the announcements, has accepted every cluster and has those of central's that name it. */
  lemma {:induction false} RegistryIsMirrored(ls: seq<LeafRec>, qs: seq<Client>)
    requires Shape(ls)
    requires var ms := RunAll(Start(ls, NO_CLUSTERS, {}), qs).c.done; FreshAdds(StripAll(ls), NewLeaves(ms),
                                                                                NewServers(ms))
    ensures Mirrors(ls, RunAll(Start(ls, NO_CLUSTERS, {}), qs))
  {
    hide Mirrors, Handle, FreshAdds;
    var w0 := Start(ls, NO_CLUSTERS, {});
    if qs == [] {
      StartMirrors(ls);
    } else {
      var most, q := qs[..|qs|-1], qs[|qs|-1];
      var w := RunAll(w0, most);
      EarlierIsFresh(ls, w, q);
      RegistryIsMirrored(ls, most);
      RunIsServeAll(ls, NO_CLUSTERS, {}, most);
      LogLeaves(ls, RequestsOf(w0, most));
      if RequestOf(w, q) == [] || !Accepts(w.c.leaves, RequestOf(w, q)[0].m) {
        RejectedStep(ls, w, q);
      } else {
        AcceptedStep(ls, w, Run(ls, w.c.log), FailedServers(w.c.done), RequestOf(w, q)[0].m, q);
      }
    }
  }

  lemma EarlierIsFresh(ls: seq<LeafRec>, w: World, q: Client)
    requires var ms := Handle(w, q).c.done; FreshAdds(StripAll(ls), NewLeaves(ms), NewServers(ms))
    ensures FreshAdds(StripAll(ls), NewLeaves(w.c.done), NewServers(w.c.done))
  {
    ServeKeepsChannels(w.c, RequestOf(w, q));
    FreshPrefix(StripAll(ls), NewLeaves(w.c.done), NewServers(w.c.done),
                NewLeaves(Handle(w, q).c.done), NewServers(Handle(w, q).c.done));
  }

  lemma StartMirrors(ls: seq<LeafRec>)
    requires Shape(ls)
    ensures Mirrors(ls, Start(ls, NO_CLUSTERS, {}))
  {
  }

  /** The clusters of a spine. It has received what central announced, in any causal merge. Its clusters
      are those of central's registry that name it if and only if it accepted each cluster whose announcement is the
      last word about its ID and that has members left: it had all of its members when it was told of
      it, and no cluster with its ID any more. */
  lemma SpineHasCentralsClustersIff(ls: seq<LeafRec>, qs: seq<Client>, got: seq<Msg>)
    requires Shape(ls)
    requires var ms := RunAll(Start(ls, NO_CLUSTERS, {}), qs).c.done; FreshAdds(StripAll(ls), NewLeaves(ms),
                                                                                NewServers(ms))
    requires var log := RunAll(Start(ls, NO_CLUSTERS, {}), qs).c.log;
             Causal(StripAll(ls), got) && SameChannels(log, got) && VCs(log) == VCs(got)
    ensures RunVC(ls, got) == Here(RunAll(Start(ls, NO_CLUSTERS, {}), qs)) <==>
            forall k: nat | LastWord(got, k) && !Emptied(got[k].servers, ServersBelow(Run(ls, got))) ::
              AcceptedAt(ls, got, k)
  {
    var w := RunAll(Start(ls, NO_CLUSTERS, {}), qs);
    RegistryIsMirrored(ls, qs);
    RunIsServeAll(ls, NO_CLUSTERS, {}, qs);
    LogLeaves(ls, RequestsOf(Start(ls, NO_CLUSTERS, {}), qs));
    LogChannels(ls, RequestsOf(Start(ls, NO_CLUSTERS, {}), qs));
    SpineClustersIff(ls, w.c.log, got);
  }
}
