/** EncodeToTopoInfo, EncodeToTopoInfoAtLeaf and NewDCNFromTopoInfo of core/model/topology.go on the
    mutable topology, proved to compute what Codec says. */
module TopologyCodec {
  import opened Words
  import opened TopologySpec
  import WorkerRanges
  import opened TopologyTree
  import opened SpineContents
  import opened Codec

  // ---------- encoding ----------

  method EncodeServerNode(server: Node) returns (info: ServerInfo)
    ensures info == EncodeServer(ServerRecOf(server))
  {
    var workersCount: u16 := 0;
    if server.LastWorkerID > server.FirstWorkerID {
      workersCount := Wrap(server.LastWorkerID - server.FirstWorkerID + 1);
    }
    return ServerInfo(server.ID, server.Address, server.Port, workersCount);
  }

  method EncodeLeafNode(leaf: Node) returns (info: LeafInfo)
    ensures info == EncodeLeaf(LeafRecOf(leaf))
  {
    var servers: seq<ServerInfo> := [];
    for i := 0 to |leaf.Children|
      invariant |servers| == i
      invariant forall j | 0 <= j < i :: servers[j] == EncodeServer(ServerRecOf(leaf.Children[j]))
    {
      var one := EncodeServerNode(leaf.Children[i]);
      servers := servers + [one];
    }
    assert servers == EncodeServers(ServerRecs(leaf.Children));
    return LeafInfo(leaf.ID, leaf.Address, leaf.MgmtAddress, leaf.DsPort, leaf.UsPort, leaf.Index, servers);
  }

  method EncodeSpine(spine: Node) returns (info: SpineInfo)
    ensures info == SpineInfo(spine.ID, spine.Address, EncodeLeaves(LeafRecs(spine.Children)))
  {
    var leaves: seq<LeafInfo> := [];
    for i := 0 to |spine.Children|
      invariant |leaves| == i
      invariant forall j | 0 <= j < i :: leaves[j] == EncodeLeaf(LeafRecOf(spine.Children[j]))
    {
      var one := EncodeLeafNode(spine.Children[i]);
      leaves := leaves + [one];
    }
    assert leaves == EncodeLeaves(LeafRecs(spine.Children));
    return SpineInfo(spine.ID, spine.Address, leaves);
  }

  ghost function SpineInfoOf(t: Topology, p: u16): SpineInfo
    requires p in t.Spines
    reads t, t.Spines[p], t.Spines[p].Children, Grandchildren(t.Spines[p].Children)
  {
    SpineInfo(p, t.Spines[p].Address, EncodeLeaves(t.LeavesOf(p)))
  }

  /** Every spine once, in whatever order the map yields them. */
  method EncodeToTopoInfo(t: Topology) returns (infos: seq<SpineInfo>)
    requires t.Valid()
    ensures forall i | 0 <= i < |infos| :: infos[i].id in t.Spines && infos[i] == SpineInfoOf(t, infos[i].id)
    ensures forall i, j | 0 <= i < j < |infos| :: infos[i].id != infos[j].id
    ensures forall p | p in t.Spines :: exists i :: 0 <= i < |infos| && infos[i].id == p
  {
    hide Linked;
    infos := [];
    var rest := t.Spines.Keys;
    while rest != {}
      invariant rest <= t.Spines.Keys
      invariant forall i | 0 <= i < |infos| ::
                  infos[i].id in t.Spines && infos[i].id !in rest && infos[i] == SpineInfoOf(t, infos[i].id)
      invariant forall i, j | 0 <= i < j < |infos| :: infos[i].id != infos[j].id
      invariant forall p | p in t.Spines && p !in rest :: exists i :: 0 <= i < |infos| && infos[i].id == p
      decreases rest
    {
      var p :| p in rest;
      var one := EncodeSpine(t.Spines[p]);
      ghost var before := infos;
      infos := infos + [one];
      rest := rest - {p};
      assert infos[|before|].id == p;
      assert forall i | 0 <= i < |before| :: infos[i] == before[i];
    }
  }

  /** The spine above the leaf, with that leaf only. */
  method EncodeToTopoInfoAtLeaf(t: Topology, leafID: u16) returns (r: Option<SpineInfo>)
    requires t.Valid()
    ensures r.Some? <==> leafID in t.Leaves
    ensures r.Some? ==>
              && t.Leaves[leafID].Parent != null
              && r.value.id == t.Leaves[leafID].Parent.ID && r.value.address == t.Leaves[leafID].Parent.Address
              && r.value.leaves == EncodeLeaves([LeafRecOf(t.Leaves[leafID])])
  {
    if leafID !in t.Leaves {
      return None;
    }
    var leaf := t.Leaves[leafID];
    assert ChildOk(leaf, t.Spines);
    var spine := t.Spines[leaf.Parent.ID];
    var info := EncodeLeafNode(leaf);
    assert [info] == EncodeLeaves([LeafRecOf(leaf)]);
    return Some(SpineInfo(spine.ID, spine.Address, [info]));
  }

  // ---------- decoding ----------

  /** A leaf with its servers, not yet in any topology. */
  ghost predicate Built(leaf: Node, servers: map<u16, Node>)
    reads leaf, leaf.Children
  {
    && leaf.Type == LeafNode
    && Keyed(servers, ServerNode) && ChildrenHeld(leaf, servers) && ParentOk(leaf)
    && forall k | k in servers :: servers[k] in leaf.Children
  }

  method BuildServer(info: ServerInfo, leaf: Node, workerID: u16) returns (server: Node, next: u16)
    ensures fresh(server) && server.ID == info.id && server.Type == ServerNode && server.Parent == leaf
    ensures ServerRecOf(server) == Place(info, workerID) && next == Wrap(workerID + info.workers)
  {
    server := new Node.Server(info.address, info.id, info.port);
    server.Parent := leaf;
    server.FirstWorkerID := workerID;
    next := Wrap(workerID + info.workers);
    server.LastWorkerID := Wrap(next - 1);
  }

  /** The leaf has the servers `cs` so far, with consecutive ranges. */
  ghost predicate PartlyBuilt(leaf: Node, servers: map<u16, Node>, cs: seq<ServerInfo>)
    reads leaf, leaf.Children
  {
    && leaf !in leaf.Children && ServerRecs(leaf.Children) == Lay(cs)
    && (forall i | 0 <= i < |leaf.Children| :: leaf.Children[i].Parent == leaf && leaf.Children[i].Type == ServerNode)
    && (forall i | 0 <= i < |leaf.Children| :: Holds(servers, leaf.Children[i]))
    && (forall k | k in servers :: servers[k].ID == k && servers[k] in leaf.Children)
  }

  /** The body of the loop over the servers of a leaf. */
  method AppendBuilt(leaf: Node, servers: map<u16, Node>, ghost cs: seq<ServerInfo>, info: ServerInfo, workerID: u16)
    returns (server: Node, more: map<u16, Node>, next: u16)
    requires PartlyBuilt(leaf, servers, cs) && info.id !in servers && workerID == Sum16(cs)
    modifies leaf`Children
    ensures fresh(server) && leaf.Children == old(leaf.Children) + [server]
    ensures PartlyBuilt(leaf, more, cs + [info]) && more == servers[info.id := server]
    ensures next == Sum16(cs + [info])
  {
    hide Lay, Sum16, Place;
    WorkerRanges.LayPrefix(cs, info);
    WorkerRanges.SumAppend(cs, info);
    server, next := BuildServer(info, leaf, workerID);
    leaf.Children := leaf.Children + [server];
    more := servers[server.ID := server];
    assert ServerRecs(leaf.Children) == Lay(cs) + [Place(info, Sum16(cs))];
  }

  lemma BuiltFromParts(leaf: Node, servers: map<u16, Node>, cs: seq<ServerInfo>)
    requires PartlyBuilt(leaf, servers, cs) && leaf.Type == LeafNode && DistinctInfos(cs)
    ensures Built(leaf, servers)
    ensures forall k :: k in servers <==> exists i :: 0 <= i < |cs| && cs[i].id == k
  {
    assert forall j | 0 <= j < |leaf.Children| :: leaf.Children[j].ID == ServerRecs(leaf.Children)[j].id == cs[j].id;
    forall k | k in servers ensures exists i :: 0 <= i < |cs| && cs[i].id == k {
      var i :| 0 <= i < |leaf.Children| && leaf.Children[i] == servers[k];
      assert cs[i].id == k;
    }
    forall i | 0 <= i < |cs| ensures cs[i].id in servers {
      assert Holds(servers, leaf.Children[i]);
    }
  }

  method BuildLeaf(info: LeafInfo, spine: Node) returns (leaf: Node, servers: map<u16, Node>)
    requires DistinctInfos(info.servers)
    ensures fresh(leaf) && leaf.ID == info.id && leaf.Parent == spine && Built(leaf, servers)
    ensures forall k | k in servers :: fresh(servers[k])
    ensures forall k :: k in servers <==> exists i :: 0 <= i < |info.servers| && info.servers[i].id == k
    ensures LeafRecOf(leaf) == DecodeLeaf(info)
  {
    hide LeafRecs, ServerRecs, Lay, ParentOk, ChildrenHeld, ServerRecOf;
    leaf := new Node.Leaf(info.address, info.mgmt, info.id, info.dsPort, info.usPort);
    leaf.Index := info.index;
    leaf.Parent := spine;
    servers := map[];
    var workerID: u16 := 0;
    leaf.FirstWorkerID := workerID;
    assert ServerRecs(leaf.Children) == Lay(info.servers[..0]);
    for i := 0 to |info.servers|
      invariant fresh(leaf) && leaf.Parent == spine && leaf.Index == info.index && leaf.FirstWorkerID == 0
      invariant workerID == Sum16(info.servers[..i])
      invariant PartlyBuilt(leaf, servers, info.servers[..i])
      invariant servers.Keys == set j | 0 <= j < i :: info.servers[j].id
      invariant forall k | k in servers :: fresh(servers[k])
    {
      assert info.servers[..i+1] == info.servers[..i] + [info.servers[i]];
      var server;
      server, servers, workerID := AppendBuilt(leaf, servers, info.servers[..i], info.servers[i], workerID);
    }
    assert info.servers[..|info.servers|] == info.servers;
    leaf.LastWorkerID := Wrap(workerID - 1);
    BuiltFromParts(leaf, servers, info.servers);
  }

  /** A leaf that was built on its own joins the topology, with its servers. */
  lemma LinkedAdopt(lv: Level, leaf: Node, servers: map<u16, Node>)
    requires Built(leaf, servers) && leaf.ID !in lv.up && lv.down.Keys !! servers.Keys
    requires Linked(lv) && forall k | k in lv.up :: lv.up[k].ID == k
    ensures Linked(Level(lv.up[leaf.ID := leaf], lv.down + servers))
  {
    var up, down := lv.up[leaf.ID := leaf], lv.down + servers;
    forall k | k in up ensures ChildrenHeld(up[k], down) && ParentOk(up[k]) {
      if k != leaf.ID {
        assert ChildrenHeld(lv.up[k], lv.down) && ParentOk(lv.up[k]);
      }
    }
    forall k | k in down ensures ChildOk(down[k], up) {
      if k !in servers {
        assert ChildOk(lv.down[k], lv.up);
      }
    }
  }

  /** The leaves of a topology after leaf `leaf` was appended below spine `spineID`. */
  twostate lemma AfterInstall(new t: Topology, new spineID: u16, new leaf: Node, new servers: map<u16, Node>)
    requires old(allocated(t)) && old(t.Valid()) && t.Spines == old(t.Spines) && spineID in t.Spines
    requires Built(leaf, servers) && leaf.ID !in old(t.Leaves) && old(t.Servers).Keys !! servers.Keys
    requires leaf.Parent == t.Spines[spineID]
    requires t.Leaves == old(t.Leaves)[leaf.ID := leaf] && t.Servers == old(t.Servers) + servers
    requires forall k | k in t.Spines ::
               t.Spines[k].Children == old(t.Spines[k].Children) + if k == spineID then [leaf] else []
    requires forall k | k in old(t.Leaves) ::
               old(t.Leaves[k]).Children == old(t.Leaves[k].Children) &&
                 old(t.Leaves[k]).Parent == old(t.Leaves[k].Parent)
    requires forall k | k in old(t.Servers) :: old(t.Servers[k]).Parent == old(t.Servers[k].Parent)
    ensures t.Valid()
  {
    assert Linked(Level(t.Spines, t.Leaves)) by {
      LinkedAttach(Level(t.Spines, old(t.Leaves)), spineID, leaf);
    }
    assert Linked(Level(t.Leaves, t.Servers)) by {
      LinkedFrame(Level(old(t.Leaves), old(t.Servers)));
      LinkedAdopt(Level(old(t.Leaves), old(t.Servers)), leaf, servers);
    }
  }

  function ServerIdsOf(info: LeafInfo): set<u16> {
    set i | 0 <= i < |info.servers| :: info.servers[i].id
  }

  twostate lemma RecordsAfterInstall(spine: Node, new leaf: Node)
    requires spine.Children == old(spine.Children) + [leaf]
    requires forall l | l in old(spine.Children) :: LeafRecOf(l) == old(LeafRecOf(l))
    ensures LeafRecs(spine.Children) == old(LeafRecs(spine.Children)) + [LeafRecOf(leaf)]
  {
  }

  /** Stores a leaf that was built for this spine, and its servers. */
  method AttachBuilt(t: Topology, spine: Node, leaf: Node, servers: map<u16, Node>)
    requires t.Valid() && Holds(t.Spines, spine) && leaf.ID !in t.Leaves && leaf.Parent == spine
    requires Built(leaf, servers) && t.Servers.Keys !! servers.Keys
    modifies t`Leaves, t`Servers, spine`Children
    ensures t.Valid()
    ensures t.Leaves == old(t.Leaves)[leaf.ID := leaf] && spine.Children == old(spine.Children) + [leaf]
    ensures t.Servers == old(t.Servers) + servers
    ensures LeafRecs(spine.Children) == old(LeafRecs(spine.Children)) + [old(LeafRecOf(leaf))]
  {
    hide LeafRecs, ServerRecs, LeafRecOf, DecodeLeaf, ParentOk, ChildOk, Linked, ChildrenHeld;
    assert spine !in leaf.Children && forall l | l in spine.Children :: l != spine && spine !in l.Children by {
      NotBelowItself(t, spine, leaf, servers);
    }
    spine.Children := spine.Children + [leaf];
    t.Servers := t.Servers + servers;
    t.Leaves := t.Leaves[leaf.ID := leaf];
    AfterInstall(t, spine.ID, leaf, servers);
    RecordsAfterInstall(spine, leaf);
  }

  lemma NotBelowItself(t: Topology, spine: Node, leaf: Node, servers: map<u16, Node>)
    requires t.Valid() && Holds(t.Spines, spine) && Built(leaf, servers)
    ensures spine !in leaf.Children && forall l | l in spine.Children :: l != spine && spine !in l.Children
  {
    assert ChildrenHeld(spine, t.Leaves);
    forall l | l in spine.Children ensures l != spine && spine !in l.Children {
      var i :| 0 <= i < |spine.Children| && spine.Children[i] == l;
      assert Holds(t.Leaves, l) && ChildrenHeld(l, t.Servers);
    }
  }

  /** Builds one leaf below its spine and stores it and its servers in the maps. */
  method InstallLeaf(t: Topology, spine: Node, info: LeafInfo) returns (leaf: Node)
    requires t.Valid() && Holds(t.Spines, spine) && info.id !in t.Leaves
    requires DistinctInfos(info.servers) && ServerIdsOf(info) !! t.Servers.Keys
    modifies t`Leaves, t`Servers, spine`Children
    ensures t.Valid()
    ensures fresh(leaf) && t.Leaves == old(t.Leaves)[info.id := leaf] && spine.Children == old(spine.Children) + [leaf]
    ensures LeafRecs(spine.Children) == old(LeafRecs(spine.Children)) + [DecodeLeaf(info)]
    ensures t.Servers.Keys == old(t.Servers.Keys) + ServerIdsOf(info)
    ensures forall k | k in old(t.Servers) :: t.Servers[k] == old(t.Servers[k])
  {
    hide LeafRecs, ServerRecs, LeafRecOf, DecodeLeaf, ParentOk, ChildOk, Linked, ChildrenHeld;
    var servers;
    leaf, servers := BuildLeaf(info, spine);
    assert LeafRecs(spine.Children) == old(LeafRecs(spine.Children));
    AttachBuilt(t, spine, leaf, servers);
  }

  function LeafIdsOf(leaves: seq<LeafInfo>): set<u16> {
    set i | 0 <= i < |leaves| :: leaves[i].id
  }

  function AllServerIds(leaves: seq<LeafInfo>): set<u16> {
    set i, s | 0 <= i < |leaves| && s in ServerIdsOf(leaves[i]) :: s
  }

  /** No ID occurs twice below the spine. */
  ghost predicate UniqueBelow(leaves: seq<LeafInfo>) {
    && (forall i, j | 0 <= i < j < |leaves| :: leaves[i].id != leaves[j].id)
    && (forall i, j | 0 <= i < j < |leaves| :: ServerIdsOf(leaves[i]) !! ServerIdsOf(leaves[j]))
    && (forall i | 0 <= i < |leaves| :: DistinctInfos(leaves[i].servers))
  }

  lemma IdsStep(leaves: seq<LeafInfo>, i: nat)
    requires i < |leaves|
    ensures LeafIdsOf(leaves[..i+1]) == LeafIdsOf(leaves[..i]) + {leaves[i].id}
    ensures AllServerIds(leaves[..i+1]) == AllServerIds(leaves[..i]) + ServerIdsOf(leaves[i])
    ensures DecodeLeaves(leaves[..i+1]) == DecodeLeaves(leaves[..i]) + [DecodeLeaf(leaves[i])]
  {
    var less, more := leaves[..i], leaves[..i+1];
    assert more == less + [leaves[i]];
    forall id ensures id in LeafIdsOf(more) <==> id in LeafIdsOf(less) + {leaves[i].id} {
      if id in LeafIdsOf(less) {
        var j :| 0 <= j < |less| && less[j].id == id;
        assert more[j].id == id;
      }
      assert more[i].id == leaves[i].id;
    }
    forall id ensures id in AllServerIds(more) <==> id in AllServerIds(less) + ServerIdsOf(leaves[i]) {
      if id in AllServerIds(less) {
        var j :| 0 <= j < |less| && id in ServerIdsOf(less[j]);
        assert id in ServerIdsOf(more[j]);
      }
      assert ServerIdsOf(more[i]) == ServerIdsOf(leaves[i]);
    }
  }

  lemma NextIsNew(leaves: seq<LeafInfo>, i: nat)
    requires UniqueBelow(leaves) && i < |leaves|
    ensures leaves[i].id !in LeafIdsOf(leaves[..i]) && ServerIdsOf(leaves[i]) !! AllServerIds(leaves[..i])
    ensures leaves[i].id in LeafIdsOf(leaves) && ServerIdsOf(leaves[i]) <= AllServerIds(leaves)
    ensures DistinctInfos(leaves[i].servers)
  {
    forall j | 0 <= j < i ensures ServerIdsOf(leaves[..i][j]) !! ServerIdsOf(leaves[i]) {
      assert leaves[..i][j] == leaves[j];
    }
  }

  /** Rebuilds one spine. Nothing below the other spines changes. */
  method DecodeSpine(t: Topology, info: SpineInfo)
    requires t.Valid() && info.id !in t.Spines && UniqueBelow(info.leaves)
    requires LeafIdsOf(info.leaves) !! t.Leaves.Keys && AllServerIds(info.leaves) !! t.Servers.Keys
    modifies t
    ensures t.Valid() && t.Spines.Keys == old(t.Spines.Keys) + {info.id}
    ensures t.Leaves.Keys == old(t.Leaves.Keys) + LeafIdsOf(info.leaves)
    ensures t.Servers.Keys == old(t.Servers.Keys) + AllServerIds(info.leaves)
    ensures t.LeavesOf(info.id) == DecodeLeaves(info.leaves) && t.Spines[info.id].Address == info.address
    ensures forall p | p in old(t.Spines) :: t.Spines[p] == old(t.Spines[p]) && t.LeavesOf(p) == old(t.LeavesOf(p))
  {
    hide LeafRecs, ServerRecs, LeafRecOf, DecodeLeaf, ParentOk, ChildOk, ChildrenHeld, Linked, ServerIdsOf,
      UniqueBelow, DistinctInfos;
    var spine := new Node.Spine(info.address, info.id);
    LinkedMore(Level(t.Spines, t.Leaves), spine);
    t.Spines := t.Spines[spine.ID := spine];
    assert LeafRecs(spine.Children) == DecodeLeaves(info.leaves[..0]);
    assert LeafIdsOf(info.leaves[..0]) == {} && AllServerIds(info.leaves[..0]) == {};
    for i := 0 to |info.leaves|
      invariant t.Valid() && t.Spines == old(t.Spines)[info.id := spine] && fresh(spine)
      invariant LeafRecs(spine.Children) == DecodeLeaves(info.leaves[..i])
      invariant t.Leaves.Keys == old(t.Leaves.Keys) + LeafIdsOf(info.leaves[..i])
      invariant t.Servers.Keys == old(t.Servers.Keys) + AllServerIds(info.leaves[..i])
      modifies t, spine
    {
      IdsStep(info.leaves, i);
      NextIsNew(info.leaves, i);
      var leaf := InstallLeaf(t, spine, info.leaves[i]);
    }
    assert info.leaves[..|info.leaves|] == info.leaves;
  }

  /** No ID occurs twice in the whole message. */
  ghost predicate Unique(infos: seq<SpineInfo>) {
    && (forall i | 0 <= i < |infos| :: UniqueBelow(infos[i].leaves))
    && (forall i, j | 0 <= i < j < |infos| ::
          && infos[i].id != infos[j].id
          && LeafIdsOf(infos[i].leaves) !! LeafIdsOf(infos[j].leaves)
          && AllServerIds(infos[i].leaves) !! AllServerIds(infos[j].leaves))
  }

  ghost predicate Rebuilt(t: Topology, info: SpineInfo)
    reads t, t.Spines.Values, t.Leaves.Values, t.Servers.Values
    requires t.Valid()
  {
    info.id in t.Spines && t.Spines[info.id].Address == info.address && t.LeavesOf(info.id) == DecodeLeaves(info.leaves)
  }

  /** Rebuilds every spine of the message. */
  method Decode(infos: seq<SpineInfo>) returns (t: Topology)
    requires Unique(infos)
    ensures fresh(t) && t.Valid()
    ensures forall p :: p in t.Spines <==> exists i :: 0 <= i < |infos| && infos[i].id == p
    ensures forall i | 0 <= i < |infos| :: Rebuilt(t, infos[i])
  {
    hide LeafRecs, ServerRecs, LeafRecOf, DecodeLeaf, ParentOk, ChildOk, ChildrenHeld, Linked, ServerIdsOf,
      UniqueBelow, DistinctInfos, Topology.Valid, AllServerIds, LeafIdsOf, Grandchildren, Topology.LeavesOf, Keyed;
    t := new Topology();
    for i := 0 to |infos|
      invariant fresh(t) && t.Valid()
      invariant forall p | p in t.Spines :: exists j :: 0 <= j < i && infos[j].id == p
      invariant forall x | x in t.Leaves :: exists j :: 0 <= j < i && x in LeafIdsOf(infos[j].leaves)
      invariant forall x | x in t.Servers :: exists j :: 0 <= j < i && x in AllServerIds(infos[j].leaves)
      invariant forall j | 0 <= j < i :: Rebuilt(t, infos[j])
      modifies t
    {
      DecodeSpine(t, infos[i]);
    }
  }

  // ---------- the round trip ----------

  lemma IdsOfSpine(t: Topology, p: u16)
    requires t.Valid() && p in t.Spines
    ensures UniqueBelow(EncodeLeaves(t.LeavesOf(p)))
    ensures forall id | id in LeafIdsOf(EncodeLeaves(t.LeavesOf(p))) ::
            id in t.Leaves && t.Leaves[id].Parent == t.Spines[p]
    ensures forall id | id in AllServerIds(EncodeLeaves(t.LeavesOf(p))) ::
              id in t.Servers && t.Servers[id].Parent != null && t.Servers[id].Parent.Parent == t.Spines[p]
  {
    var kids, infos := t.Spines[p].Children, EncodeLeaves(t.LeavesOf(p));
    assert ChildrenHeld(t.Spines[p], t.Leaves) && ParentOk(t.Spines[p]);
    forall i, id | 0 <= i < |infos| && id in ServerIdsOf(infos[i])
      ensures id in t.Servers && t.Servers[id].Parent == kids[i]
    {
      assert Holds(t.Leaves, kids[i]);
      t.ServersOfLeaf(kids[i], id);
      var k :| 0 <= k < |infos[i].servers| && infos[i].servers[k].id == id;
      assert LeafRecOf(kids[i]).servers[k].id == id;
    }
    forall i, j | 0 <= i < j < |infos|
      ensures infos[i].id != infos[j].id && ServerIdsOf(infos[i]) !! ServerIdsOf(infos[j]) {
      assert Holds(t.Leaves, kids[i]) && Holds(t.Leaves, kids[j]) && kids[i] != kids[j];
      forall id | id in ServerIdsOf(infos[i]) ensures id !in ServerIdsOf(infos[j]) {
        assert t.Servers[id].Parent == kids[i];
      }
    }
    forall i | 0 <= i < |infos| ensures DistinctInfos(infos[i].servers) {
      assert Holds(t.Leaves, kids[i]);
      forall j, k | 0 <= j < k < |infos[i].servers| ensures infos[i].servers[j].id != infos[i].servers[k].id {
        t.ChildIdsDiffer(kids[i], j, k);
      }
    }
  }

  lemma EncodedIsUnique(t: Topology, infos: seq<SpineInfo>)
    requires t.Valid()
    requires forall i | 0 <= i < |infos| :: infos[i].id in t.Spines && infos[i] == SpineInfoOf(t, infos[i].id)
    requires forall i, j | 0 <= i < j < |infos| :: infos[i].id != infos[j].id
    ensures Unique(infos)
  {
    hide UniqueBelow, LeafIdsOf, AllServerIds, EncodeLeaves, LeafRecs, Linked;
    forall i | 0 <= i < |infos| ensures UniqueBelow(infos[i].leaves) {
      IdsOfSpine(t, infos[i].id);
    }
    forall i, j | 0 <= i < j < |infos|
      ensures LeafIdsOf(infos[i].leaves) !! LeafIdsOf(infos[j].leaves)
      ensures AllServerIds(infos[i].leaves) !! AllServerIds(infos[j].leaves)
    {
      IdsOfSpine(t, infos[i].id);
      IdsOfSpine(t, infos[j].id);
      assert t.Spines[infos[i].id] != t.Spines[infos[j].id];
    }
  }

  ghost predicate AllTiled(ls: seq<LeafRec>) {
    forall i | 0 <= i < |ls| :: LeafTiled(ls[i]) && Total(Contents(ls[i].servers)) < WORD_SIZE
  }

  /** The message and the copy that was built from it. */
  ghost predicate Sent(t: Topology, infos: seq<SpineInfo>)
    reads t, t.Spines.Values, t.Leaves.Values, t.Servers.Values
    requires t.Valid()
  {
    && (forall i | 0 <= i < |infos| :: infos[i].id in t.Spines && infos[i] == SpineInfoOf(t, infos[i].id))
    && (forall p | p in t.Spines :: exists i :: 0 <= i < |infos| && infos[i].id == p)
  }

  /** A controller that starts from another's topology: encode there, decode here. The copy has the
      same spines and the same children below each, up to the stored end of worker-less leaves, if and
      only if no server has exactly one worker. */
  lemma CopyEqualsIff(t: Topology, infos: seq<SpineInfo>, copy: Topology, p: u16)
    requires t.Valid() && copy.Valid() && Sent(t, infos)
    requires forall i | 0 <= i < |infos| :: Rebuilt(copy, infos[i])
    requires p in t.Spines && AllTiled(t.LeavesOf(p))
    ensures p in copy.Spines && copy.Spines[p].Address == t.Spines[p].Address
    ensures CanonAll(copy.LeavesOf(p)) == CanonAll(t.LeavesOf(p)) <==>
            forall i | 0 <= i < |t.LeavesOf(p)| :: NoSingleWorker(t.LeavesOf(p)[i])
  {
    hide LeafRecs, Linked, CanonAll, NoSingleWorker, LeafTiled, EncodeLeaves, DecodeLeaves;
    var i :| 0 <= i < |infos| && infos[i].id == p;
    assert Rebuilt(copy, infos[i]);
    RoundTripIff(t.LeavesOf(p));
  }

  /** GetTopology at one controller followed by NewDCNFromTopoInfo at another. */
  method Bootstrap(t: Topology) returns (infos: seq<SpineInfo>, copy: Topology)
    requires t.Valid()
    ensures fresh(copy) && copy.Valid() && t.Valid() && copy.Spines.Keys == t.Spines.Keys
    ensures Sent(t, infos) && forall i | 0 <= i < |infos| :: Rebuilt(copy, infos[i])
  {
    hide Linked, LeafRecs, ServerRecs, LeafRecOf, EncodeLeaves, DecodeLeaves, Unique, ParentOk, ChildOk, ChildrenHeld;
    infos := EncodeToTopoInfo(t);
    EncodedIsUnique(t, infos);
    assert Sent(t, infos);
    copy := Decode(infos);
    assert t.Valid();
    assert Sent(t, infos);
  }

  // ---------- the part of one leaf ----------

  lemma OneLeafIsUnique(t: Topology, leaf: Node, id: u16, address: string)
    requires t.Valid() && Holds(t.Leaves, leaf)
    ensures Unique([SpineInfo(id, address, EncodeLeaves([LeafRecOf(leaf)]))])
  {
    var infos := EncodeLeaves([LeafRecOf(leaf)]);
    assert |infos| == 1 && infos[0] == EncodeLeaf(LeafRecOf(leaf));
    forall j, k | 0 <= j < k < |infos[0].servers| ensures infos[0].servers[j].id != infos[0].servers[k].id {
      t.ChildIdsDiffer(leaf, j, k);
    }
    assert DistinctInfos(infos[0].servers);
  }

  /** What a leaf controller starts from: GetTopologyAtLeaf at central, NewDCNFromTopoInfo at the leaf.
      The copy has the spine above with this leaf only, at the index it has there. */
  method BootstrapAtLeaf(t: Topology, leafID: u16) returns (copy: Topology?)
    requires t.Valid()
    ensures copy == null <==> leafID !in t.Leaves
    ensures t.Valid()
    ensures copy != null ==>
              && t.Leaves[leafID].Parent != null
              && var p := t.Leaves[leafID].Parent.ID;
              && fresh(copy) && copy.Valid() && copy.Spines.Keys == {p}
              && copy.Spines[p].Address == t.Leaves[leafID].Parent.Address
              && copy.LeavesOf(p) == DecodeLeaves(EncodeLeaves([LeafRecOf(t.Leaves[leafID])]))
  {
    hide Linked, LeafRecs, ServerRecs, LeafRecOf, EncodeLeaves, DecodeLeaves, Unique, ParentOk, ChildOk, ChildrenHeld;
    var info := EncodeToTopoInfoAtLeaf(t, leafID);
    if info.None? {
      return null;
    }
    OneLeafIsUnique(t, t.Leaves[leafID], info.value.id, info.value.address);
    copy := Decode([info.value]);
    assert t.Valid();
    assert Rebuilt(copy, [info.value][0]);
  }

  /** The leaf that is copied alone is the leaf as the spine has it, up to the stored end of a worker-less
      leaf, if and only if none of its servers has exactly one worker. */
  lemma LeafCopyEqualsIff(l: LeafRec)
    requires LeafTiled(l) && Total(Contents(l.servers)) < WORD_SIZE
    ensures var back := DecodeLeaves(EncodeLeaves([l]));
            |back| == 1 && back[0].id == l.id && back[0].index == l.index &&
              (Canon(back[0]) == Canon(l) <==> NoSingleWorker(l))
  {
    LeafTripIff(l);
  }
}
