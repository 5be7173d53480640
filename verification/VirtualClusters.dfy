/** The virtual clusters of core/model/vc.go and their inverted indexes of core/vcManager.go, as the
    mutable objects they are. Lists of clusters are Go slices: a buffer and a length, appended to in
    place while there is room and shifted in place on removal. */
module VirtualClusters {
  import opened Words
  import opened TopologyTree
  import opened VCRegistry

  /** The leaf of each server, as the topology's parent pointers have it. */
  ghost function HomeIn(t: Topology): map<u16, u16>
    reads t, t.Servers.Values
  {
    map s | s in t.Servers && t.Servers[s].Parent != null :: t.Servers[s].Parent.ID
  }

  lemma ChildrenAreAtHome(t: Topology, leaf: Node)
    requires t.Valid() && Holds(t.Leaves, leaf)
    ensures Children(leaf.ID, HomeIn(t)) == set c | c in leaf.Children :: c.ID
    ensures forall i | 0 <= i < |leaf.Children| :: Holds(t.Servers, leaf.Children[i])
    ensures forall i, j | 0 <= i < j < |leaf.Children| :: leaf.Children[i].ID != leaf.Children[j].ID
    ensures HomeIn(t).Keys == t.Servers.Keys
  {
    assert ChildrenHeld(leaf, t.Servers) && ParentOk(leaf);
    forall s | s in t.Servers ensures s in Children(leaf.ID, HomeIn(t)) <==> t.Servers[s] in leaf.Children {
      assert ChildOk(t.Servers[s], t.Leaves);
    }
  }

  class VirtualCluster {
    const ClusterID: u16
    var Spines: map<u16, Node>
    var Leaves: map<u16, Node>
    var Servers: map<u16, Node>

    constructor (id: u16)
      ensures ClusterID == id && Spines == map[] && Leaves == map[] && Servers == map[]
    {
      ClusterID, Spines, Leaves, Servers := id, map[], map[], map[];
    }

    ghost function AsCluster(): Cluster
      reads this
    {
      Cluster(Servers.Keys, Leaves.Keys)
    }

    /** Every member is the very node the topology stores under its ID. */
    ghost predicate HeldBy(t: Topology)
      reads this, t
    {
      && (forall k | k in Servers :: k in t.Servers && Servers[k] == t.Servers[k])
      && (forall k | k in Leaves :: k in t.Leaves && Leaves[k] == t.Leaves[k])
    }

    /** Is some node other than `serverID` a member? The scan over a leaf's children in DetachServer. */
    method HasOther(nodes: seq<Node>, serverID: u16) returns (other: bool)
      ensures other <==> exists j | 0 <= j < |nodes| :: nodes[j].ID != serverID && nodes[j].ID in Servers
    {
      for i := 0 to |nodes|
        invariant forall j | 0 <= j < i :: nodes[j].ID == serverID || nodes[j].ID !in Servers
      {
        var s := nodes[i];
        if s.ID != serverID {
          if s.ID in Servers {
            return true;
          }
        }
      }
      return false;
    }

    lemma ParentIsLeaf(t: Topology, serverID: u16)
      requires t.Valid() && HeldBy(t) && serverID in Servers
      ensures Servers[serverID].Parent != null && Holds(t.Leaves, Servers[serverID].Parent)
    {
      assert ChildOk(t.Servers[serverID], t.Leaves);
    }

    lemma OtherIsSibling(t: Topology, leaf: Node, serverID: u16)
      requires t.Valid() && HeldBy(t) && serverID in Servers && Servers[serverID].Parent == leaf
      requires Holds(t.Leaves, leaf)
      ensures LosesLeaf(AsCluster(), serverID, HomeIn(t)) <==>
              !exists j | 0 <= j < |leaf.Children| :: leaf.Children[j].ID != serverID && leaf.Children[j].ID in Servers
    {
      ChildrenAreAtHome(t, leaf);
      var home := HomeIn(t);
      if j :| 0 <= j < |leaf.Children| && leaf.Children[j].ID != serverID && leaf.Children[j].ID in Servers {
        assert leaf.Children[j].ID in Children(leaf.ID, home);
      }
      forall u | u in Servers && u != serverID && u in home && home[u] == leaf.ID
        ensures exists j | 0 <= j < |leaf.Children| :: leaf.Children[j].ID != serverID && leaf.Children[j].ID in Servers
      {
        assert u in Children(leaf.ID, home);
        var c :| c in leaf.Children && c.ID == u;
      }
    }

    method DetachServer(serverID: u16, ghost t: Topology, ghost home: map<u16, u16>)
      returns (detached: bool, losesLeaf: bool)
      requires t.Valid() && HeldBy(t) && home == HomeIn(t)
      modifies this`Servers
      ensures Servers == old(Servers) - {serverID}
      ensures detached <==> serverID in old(Servers)
      ensures losesLeaf <==> LosesLeaf(old(AsCluster()), serverID, home)
    {
      hide Linked, ChildrenHeld, ParentOk, Keyed;
      if serverID !in Servers {
        return false, false;
      }
      var leaf := Servers[serverID].Parent;
      ParentIsLeaf(t, serverID);
      OtherIsSibling(t, leaf, serverID);
      var leafHasOtherChild := HasOther(leaf.Children, serverID);
      losesLeaf := !leafHasOtherChild;
      Servers := Servers - {serverID};
      return true, losesLeaf;
    }

    /** The loop of DetachLeaf over the leaf's children: all members among them are detached, and the
        last of them loses the leaf. */
    method DetachChildren(leaf: Node, ghost t: Topology, ghost home: map<u16, u16>)
      returns (isDetached: bool, detachedServers: seq<Node>)
      requires t.Valid() && HeldBy(t) && home == HomeIn(t) && Holds(t.Leaves, leaf)
      modifies this`Servers
      ensures Servers == old(Servers) - (set c | c in leaf.Children :: c.ID)
      ensures forall n :: n in detachedServers <==> n in leaf.Children && n.ID in old(Servers)
      ensures forall i, j | 0 <= i < j < |detachedServers| :: detachedServers[i].ID != detachedServers[j].ID
      ensures isDetached <==> detachedServers != []
    {
      hide Linked, ChildrenHeld, ParentOk, Keyed, LosesLeaf, HomeIn, ChildOk, Topology.Valid;
      isDetached, detachedServers := false, [];
      ChildrenAreAtHome(t, leaf);
      for i := 0 to |leaf.Children|
        invariant Servers == old(Servers) - (set j | 0 <= j < i :: leaf.Children[j].ID)
        invariant forall n :: n in detachedServers <==> n in leaf.Children[..i] && n.ID in old(Servers)
        invariant forall j, k | 0 <= j < k < |detachedServers| :: detachedServers[j].ID != detachedServers[k].ID
        invariant isDetached <==>
                    detachedServers != [] && forall j | i <= j < |leaf.Children| :: leaf.Children[j].ID !in Servers
      {
        var server := leaf.Children[i];
        LastMemberLosesLeaf(t, leaf, i);
        var serverDetached, losesLeaf := DetachServer(server.ID, t, home);
        if serverDetached {
          detachedServers := detachedServers + [server];
        }
        isDetached := isDetached || losesLeaf;
      }
    }

    lemma LastMemberLosesLeaf(t: Topology, leaf: Node, i: nat)
      requires t.Valid() && HeldBy(t) && Holds(t.Leaves, leaf) && i < |leaf.Children|
      requires forall j | 0 <= j < i :: leaf.Children[j].ID !in Servers
      ensures LosesLeaf(AsCluster(), leaf.Children[i].ID, HomeIn(t)) <==>
              leaf.Children[i].ID in Servers &&
              forall j | i < j < |leaf.Children| :: leaf.Children[j].ID !in Servers
    {
      ChildrenAreAtHome(t, leaf);
      var s := leaf.Children[i].ID;
      assert ParentOk(leaf);
      if s in Servers {
        OtherIsSibling(t, leaf, s);
      }
    }

    method DetachLeaf(leafID: u16, ghost t: Topology, ghost home: map<u16, u16>)
      returns (isDetached: bool, detachedServers: seq<Node>)
      requires t.Valid() && HeldBy(t) && home == HomeIn(t)
      modifies this`Servers, this`Leaves
      ensures Leaves == old(Leaves) - {leafID}
      ensures var gone := if leafID in old(Leaves) then Below(old(Servers.Keys), leafID, home) else {};
              Servers == old(Servers) - gone && (set n | n in detachedServers :: n.ID) == gone
      ensures forall i, j | 0 <= i < j < |detachedServers| :: detachedServers[i].ID != detachedServers[j].ID
      ensures isDetached <==> detachedServers != []
    {
      hide Linked, ChildrenHeld, ParentOk, HomeIn;
      isDetached, detachedServers := false, [];
      if leafID in Leaves {
        var leaf := Leaves[leafID];
        ChildrenAreAtHome(t, leaf);
        assert Below(Servers.Keys, leafID, home) == Servers.Keys * Children(leafID, home);
        isDetached, detachedServers := DetachChildren(leaf, t, home);
        ghost var ids := set c | c in leaf.Children :: c.ID;
        assert Servers == old(Servers) - Below(old(Servers.Keys), leafID, home);
        forall id ensures id in (set n | n in detachedServers :: n.ID) <==> id in ids && id in old(Servers) {
          if id in ids && id in old(Servers) {
            var c :| c in leaf.Children && c.ID == id;
            assert c in detachedServers;
          }
        }
        Leaves := Leaves - {leafID};
      }
    }
  }

  datatype VCResult = Created(vc: VirtualCluster) | NoSpine(spineID: u16) | NoServer(serverID: u16) | NoLeaf

  lemma AboveOneMore(servers: set<u16>, s: u16, home: map<u16, u16>)
    requires servers <= home.Keys && s in home
    ensures Above(servers + {s}, home) == Above(servers, home) + {home[s]}
  {
  }

  /** Stores the spines with the given IDs, up to the first that does not exist. */
  method TakeSpines(vc: VirtualCluster, spines: seq<u16>, t: Topology) returns (taken: nat)
    requires Keyed(t.Spines, SpineNode) && vc.Spines == map[]
    modifies vc`Spines
    ensures taken <= |spines| && (taken < |spines| ==> spines[taken] !in t.Spines)
    ensures forall j | 0 <= j < taken :: spines[j] in t.Spines
    ensures vc.Spines == map k | k in spines[..taken] :: t.Spines[k]
  {
    for i := 0 to |spines|
      invariant forall j | 0 <= j < i :: spines[j] in t.Spines
      invariant vc.Spines == map k | k in spines[..i] :: t.Spines[k]
    {
      if spines[i] in t.Spines {
        var spine := t.Spines[spines[i]];
        vc.Spines := vc.Spines[spine.ID := spine];
      } else {
        return i;
      }
    }
    return |spines|;
  }

  ghost function Parents(t: Topology): set<Node>
    reads t, t.Servers.Values
  {
    set s | s in t.Servers && t.Servers[s].Parent != null :: t.Servers[s].Parent
  }

  /** One more server, and its leaf. */
  method Admit(vc: VirtualCluster, server: Node, leaf: Node, ghost home: map<u16, u16>, ghost parents: set<Node>)
    requires vc.Servers.Keys <= home.Keys && vc.Leaves.Keys == Above(vc.Servers.Keys, home)
    requires forall l | l in vc.Leaves :: l == vc.Leaves[l].ID && vc.Leaves[l] in parents
    requires server.ID in home && home[server.ID] == leaf.ID && leaf in parents
    modifies vc`Servers, vc`Leaves
    ensures vc.Servers == old(vc.Servers)[server.ID := server]
    ensures vc.Leaves.Keys == Above(vc.Servers.Keys, home)
    ensures forall l | l in vc.Leaves :: l == vc.Leaves[l].ID && vc.Leaves[l] in parents
  {
    AboveOneMore(vc.Servers.Keys, server.ID, home);
    vc.Servers := vc.Servers[server.ID := server];
    vc.Leaves := vc.Leaves[leaf.ID := leaf];
  }

  /** Stores the servers with the given IDs and their leaves, up to the first without a leaf. */
  method TakeServers(vc: VirtualCluster, servers: seq<u16>, t: Topology, ghost home: map<u16, u16>) returns (taken: nat)
    requires Keyed(t.Servers, ServerNode) && vc.Servers == map[] && vc.Leaves == map[] && home == HomeIn(t)
    modifies vc`Servers, vc`Leaves
    ensures taken <= |servers| && (taken < |servers| ==> servers[taken] !in home)
    ensures forall j | 0 <= j < taken :: servers[j] in home
    ensures vc.Servers == map s | s in servers[..taken] :: t.Servers[s]
    ensures vc.Leaves.Keys == Above(vc.Servers.Keys, home)
    ensures forall l | l in vc.Leaves :: l == vc.Leaves[l].ID && vc.Leaves[l] in Parents(t)
  {
    ghost var parents := Parents(t);
    for i := 0 to |servers|
      invariant forall j | 0 <= j < i :: servers[j] in home
      invariant vc.Servers == map s | s in servers[..i] :: t.Servers[s]
      invariant vc.Leaves.Keys == Above(vc.Servers.Keys, home)
      invariant forall l | l in vc.Leaves :: l == vc.Leaves[l].ID && vc.Leaves[l] in parents
    {
      if servers[i] in t.Servers && t.Servers[servers[i]].Parent != null {
        assert servers[..i+1] == servers[..i] + [servers[i]];
        Admit(vc, t.Servers[servers[i]], t.Servers[servers[i]].Parent, home, parents);
      } else {
        return i;
      }
    }
    return |servers|;
  }

  /** Resolves the members of a new cluster in the topology; the first one that does not exist is
      reported. */
  method NewVC(id: u16, spines: seq<u16>, servers: seq<u16>, t: Topology) returns (r: VCResult)
    requires Keyed(t.Spines, SpineNode) && Keyed(t.Servers, ServerNode)
    ensures r.Created? <==> (forall k | k in spines :: k in t.Spines) && (forall s | s in servers :: s in HomeIn(t))
    ensures r.NoSpine? <==> exists i :: 0 <= i < |spines| && spines[i] !in t.Spines
    ensures r.NoSpine? ==> exists i :: 0 <= i < |spines| && spines[i] == r.spineID && r.spineID !in t.Spines &&
                                       forall j | 0 <= j < i :: spines[j] in t.Spines
    ensures r.NoServer? ==> exists i :: 0 <= i < |servers| && servers[i] == r.serverID && r.serverID !in t.Servers &&
                                        forall j | 0 <= j < i :: servers[j] in HomeIn(t)
    ensures r.NoLeaf? ==> exists i :: 0 <= i < |servers| && servers[i] in t.Servers && servers[i] !in HomeIn(t) &&
                                      forall j | 0 <= j < i :: servers[j] in HomeIn(t)
    ensures r.Created? ==>
              && fresh(r.vc) && r.vc.ClusterID == id
              && r.vc.Spines == (map k | k in spines :: t.Spines[k])
              && r.vc.Servers == (map s | s in servers :: t.Servers[s])
              && r.vc.Leaves.Keys == Above(r.vc.Servers.Keys, HomeIn(t))
              && forall l | l in r.vc.Leaves :: l == r.vc.Leaves[l].ID && r.vc.Leaves[l] in Parents(t)
  {
    hide Keyed, HomeIn;
    var vc := new VirtualCluster(id);
    var taken := TakeSpines(vc, spines, t);
    if taken < |spines| {
      return NoSpine(spines[taken]);
    }
    assert spines[..taken] == spines;
    taken := TakeServers(vc, servers, t, HomeIn(t));
    if taken < |servers| {
      assert servers[taken] in servers;
      return if servers[taken] in t.Servers then NoLeaf else NoServer(servers[taken]);
    }
    assert servers[..taken] == servers;
    return Created(vc);
  }

  /** On a valid topology a new cluster holds the topology's own nodes. */
  lemma NewVCIsHeld(vc: VirtualCluster, t: Topology)
    requires t.Valid()
    requires forall s | s in vc.Servers :: s in t.Servers && vc.Servers[s] == t.Servers[s]
    requires forall l | l in vc.Leaves :: l == vc.Leaves[l].ID && vc.Leaves[l] in Parents(t)
    ensures vc.HeldBy(t)
  {
    forall l | l in vc.Leaves ensures l in t.Leaves && vc.Leaves[l] == t.Leaves[l] {
      var s :| s in t.Servers && t.Servers[s].Parent == vc.Leaves[l];
      assert ChildOk(t.Servers[s], t.Leaves);
    }
  }
}
