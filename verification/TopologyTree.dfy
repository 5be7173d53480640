/** The mutable topology of core/model/topology.go: nodes with parent pointers and child lists,
    shadowed by flat ID maps. Every operation is proved to keep tree and maps in agreement and to
    act on the children of each spine as the specification in TopologySpec says. */
module TopologyTree {
  import opened Words
  import opened TopologySpec
  import opened WorkerRanges

  datatype NodeType = ServerNode | LeafNode | SpineNode

  class Node {
    const ID: u16
    const Type: NodeType
    const Address: string
    const MgmtAddress: string
    const Port: Port    // of a server
    const DsPort: Port  // of a leaf
    const UsPort: Port  // of a leaf

    var Parent: Node?
    var Children: seq<Node>
    var FirstWorkerID: u16
    var LastWorkerID: u16
    var Index: u16

    var LastPingTime: int
    var Healthy: bool
    var Ready: bool

    constructor Server(address: string, id: u16, port: Port)
      ensures ID == id && Type == ServerNode && Address == address && Port == port
      ensures Parent == null && Children == []
      ensures !Healthy && !Ready
    {
      ID, Type, Address, Port := id, ServerNode, address, port;
      Parent, Children := null, [];
      Healthy, Ready := false, false;
    }

    constructor Leaf(address: string, mgmt: string, id: u16, dsPort: Port, usPort: Port)
      ensures ID == id && Type == LeafNode && Address == address && MgmtAddress == mgmt
      ensures DsPort == dsPort && UsPort == usPort
      ensures Parent == null && Children == []
    {
      ID, Type, Address, MgmtAddress, DsPort, UsPort := id, LeafNode, address, mgmt, dsPort, usPort;
      Parent, Children := null, [];
    }

    constructor Spine(address: string, id: u16)
      ensures ID == id && Type == SpineNode && Address == address
      ensures Parent == null && Children == []
    {
      ID, Type, Address := id, SpineNode, address;
      Parent, Children := null, [];
    }
  }

  // ---------- the records that nodes hold ----------

  ghost function ServerRecOf(s: Node): ServerRec
    reads s
  {
    ServerRec(s.ID, s.Address, s.Port, s.FirstWorkerID, s.LastWorkerID)
  }

  ghost function ServerRecs(ss: seq<Node>): (r: seq<ServerRec>)
    reads ss
    ensures |r| == |ss|
    ensures forall i | 0 <= i < |ss| :: r[i] == ServerRecOf(ss[i])
  {
    seq(|ss|, i requires 0 <= i < |ss| reads ss => ServerRecOf(ss[i]))
  }

  ghost function LeafRecOf(l: Node): LeafRec
    reads l, l.Children
  {
    LeafRec(l.ID, l.Address, l.MgmtAddress, l.DsPort, l.UsPort,
            l.Index, l.FirstWorkerID, l.LastWorkerID, ServerRecs(l.Children))
  }

  ghost function Grandchildren(ls: seq<Node>): set<Node>
    reads ls
  {
    set l, s | l in ls && s in l.Children :: s
  }

  ghost function LeafRecs(ls: seq<Node>): (r: seq<LeafRec>)
    reads ls, Grandchildren(ls)
    ensures |r| == |ls|
    ensures forall i | 0 <= i < |ls| :: r[i] == LeafRecOf(ls[i])
  {
    seq(|ls|, i requires 0 <= i < |ls| reads ls, Grandchildren(ls) =>
      assert forall s | s in ls[i].Children :: s in Grandchildren(ls);
      LeafRecOf(ls[i]))
  }

  // ---------- tree and maps agree ----------

  ghost predicate Keyed(m: map<u16, Node>, t: NodeType) {
    forall k | k in m :: m[k].ID == k && m[k].Type == t
  }

  ghost predicate Holds(m: map<u16, Node>, n: Node) {
    n.ID in m && m[n.ID] == n
  }

  ghost predicate ChildrenHeld(n: Node, down: map<u16, Node>)
    reads n`Children
    ensures ChildrenHeld(n, down) ==> forall c | c in n.Children :: c in down.Values
  {
    forall i | 0 <= i < |n.Children| :: Holds(down, n.Children[i])
  }

  ghost predicate ParentOk(n: Node)
    reads n`Children, n.Children`Parent
  {
    && (forall i | 0 <= i < |n.Children| :: n.Children[i].Parent == n)
    && (forall i, j | 0 <= i < j < |n.Children| :: n.Children[i] != n.Children[j])
  }

  ghost predicate ChildOk(c: Node, up: map<u16, Node>)
    reads c`Parent, up.Values`Children
  {
    c.Parent != null && Holds(up, c.Parent) && c in up[c.Parent.ID].Children
  }

  /** Two adjacent levels of the tree, by ID. */
  datatype Level = Level(up: map<u16, Node>, down: map<u16, Node>)

  /** The children of the nodes in `up` are exactly the nodes in `down`, each under one parent,
      to which it points back, and in one place. */
  ghost predicate Linked(lv: Level)
    reads lv.up.Values`Children, lv.down.Values`Parent
  {
    && (forall k | k in lv.up :: ChildrenHeld(lv.up[k], lv.down) && ParentOk(lv.up[k]))
    && (forall k | k in lv.down :: ChildOk(lv.down[k], lv.up))
  }

  twostate predicate SameParents(lv: Level)
    reads lv.down.Values`Parent
  {
    forall k | k in lv.down :: lv.down[k].Parent == old(lv.down[k].Parent)
  }

  twostate lemma LinkedFrame(lv: Level)
    requires old(Linked(lv)) && SameParents(lv)
    requires forall k | k in lv.up :: lv.up[k].Children == old(lv.up[k].Children)
    ensures Linked(lv)
  {
    forall k | k in lv.up ensures ChildrenHeld(lv.up[k], lv.down) && ParentOk(lv.up[k]) {
      assert old(ChildrenHeld(lv.up[k], lv.down) && ParentOk(lv.up[k]));
    }
    forall k | k in lv.down ensures ChildOk(lv.down[k], lv.up) {
      assert old(ChildOk(lv.down[k], lv.up));
    }
  }

  /** Appending a new child keeps tree and maps in agreement. */
  twostate lemma LinkedAttach(lv: Level, new parent: u16, new c: Node)
    requires old(Linked(lv)) && SameParents(lv)
    requires parent in lv.up && c.ID !in lv.down && c.Parent == lv.up[parent]
    requires forall k | k in lv.up :: lv.up[k].ID == k
    requires forall k | k in lv.up ::
               lv.up[k].Children == old(lv.up[k].Children) + if k == parent then [c] else []
    ensures Linked(lv.(down := lv.down[c.ID := c]))
  {
    var more := lv.down[c.ID := c];
    forall k | k in lv.up ensures ChildrenHeld(lv.up[k], more) && ParentOk(lv.up[k]) {
      assert old(ChildrenHeld(lv.up[k], lv.down) && ParentOk(lv.up[k]));
    }
    forall k | k in more ensures ChildOk(more[k], lv.up) {
      if k != c.ID {
        assert old(ChildOk(lv.down[k], lv.up));
      }
    }
  }

  lemma LinkedMore(lv: Level, n: Node)
    requires Linked(lv) && n.ID !in lv.up && n.Children == []
    ensures Linked(lv.(up := lv.up[n.ID := n]))
  {
    var more := lv.up[n.ID := n];
    forall k | k in more ensures ChildrenHeld(more[k], lv.down) && ParentOk(more[k]) {
      assert k != n.ID ==> ChildrenHeld(lv.up[k], lv.down) && ParentOk(lv.up[k]);
    }
    forall k | k in lv.down ensures ChildOk(lv.down[k], more) {
      assert ChildOk(lv.down[k], lv.up);
    }
  }

  lemma LinkedLess(lv: Level, id: u16)
    requires Linked(lv) && id in lv.up && lv.up[id].Children == []
    ensures Linked(lv.(up := lv.up - {id}))
  {
    var less := lv.up - {id};
    forall k | k in lv.down ensures ChildOk(lv.down[k], less) {
      assert ChildOk(lv.down[k], lv.up);
    }
  }

  /** After a splice the lists hold what is left. */
  twostate lemma OthersHeld(lv: Level, new parent: u16, new i: nat)
    requires old(Linked(lv)) && SameParents(lv)
    requires parent in lv.up && i < |old(lv.up[parent].Children)|
    requires forall k | k in lv.up :: lv.up[k].ID == k
    requires forall k | k in lv.down :: lv.down[k].ID == k
    requires lv.up[parent].Children == old(lv.up[parent].Children)[..i] + old(lv.up[parent].Children)[i+1..]
    requires forall k | k in lv.up && k != parent :: lv.up[k].Children == old(lv.up[k].Children)
    ensures var rest := lv.down - {old(lv.up[parent].Children)[i].ID};
            forall k | k in lv.up :: ChildrenHeld(lv.up[k], rest) && ParentOk(lv.up[k])
  {
    hide Keyed, ChildOk;
    var n := lv.up[parent];
    var kids := old(n.Children);
    var rest := lv.down - {kids[i].ID};
    assert old(ChildrenHeld(n, lv.down) && ParentOk(n));
    forall k | k in lv.up ensures ChildrenHeld(lv.up[k], rest) && ParentOk(lv.up[k]) {
      assert old(ChildrenHeld(lv.up[k], lv.down) && ParentOk(lv.up[k]));
    }
  }

  /** Splicing out a child, and deleting its map entry, keeps tree and maps in agreement. */
  twostate lemma LinkedDetach(lv: Level, new parent: u16, new i: nat)
    requires old(Linked(lv)) && SameParents(lv)
    requires parent in lv.up && i < |old(lv.up[parent].Children)|
    requires forall k | k in lv.up :: lv.up[k].ID == k
    requires forall k | k in lv.down :: lv.down[k].ID == k
    requires lv.up[parent].Children == old(lv.up[parent].Children)[..i] + old(lv.up[parent].Children)[i+1..]
    requires forall k | k in lv.up && k != parent :: lv.up[k].Children == old(lv.up[k].Children)
    ensures Linked(lv.(down := lv.down - {old(lv.up[parent].Children)[i].ID}))
  {
    hide Keyed;
    var n := lv.up[parent];
    var kids := old(n.Children);
    var rest := lv.down - {kids[i].ID};
    OthersHeld(lv, parent, i);
    forall k | k in rest ensures ChildOk(rest[k], lv.up) {
      assert old(ChildOk(lv.down[k], lv.up));
      if rest[k].Parent == n {
        assert rest[k] in kids[..i] + [kids[i]] + kids[i+1..] by {
          assert kids == kids[..i] + [kids[i]] + kids[i+1..];
        }
      }
    }
  }

  datatype Reason =
    | NoSuchSpine | LeafExists | LeafExistsElsewhere | AddressInUse
    | NoSuchLeaf | ServerExists | ServerExistsElsewhere

  datatype AddResult = Added(node: Node) | Rejected(reason: Reason)

  datatype Option<T> = None | Some(value: T)

  lemma SpliceAt(kids: seq<Node>, r: nat)
    requires r < |kids|
    ensures forall q | 0 <= q < |kids| - 1 :: (kids[..r] + kids[r+1..])[q] == kids[Skip(r, q)]
  {
  }

  lemma RemovedAt(ls: seq<LeafRec>, k: nat, q: nat)
    requires k < |ls| && q < |ls| - 1
    ensures RemoveLeafAtPosition(ls, k)[q] ==
            ls[Skip(k, q)].(index := if q < k then ls[q].index else Wrap(ls[q+1].index - 1))
  {
  }

  ghost predicate AgreeExceptAt(a: seq<LeafRec>, b: seq<LeafRec>, k: nat) {
    |a| == |b| && forall i | 0 <= i < |a| && i != k :: a[i] == b[i]
  }

  lemma SpliceIgnoresRemoved(a: seq<LeafRec>, b: seq<LeafRec>, k: nat)
    requires k <= |a| && AgreeExceptAt(a, b, k)
    ensures RemoveLeafAtPosition(a, k) == RemoveLeafAtPosition(b, k)
  {
    if k < |a| {
      assert a[..k] == b[..k] && a[k+1..] == b[k+1..];
    } else {
      assert a == b;
    }
  }

  /** The one more leaf has addresses of its own. */
  lemma AddedHasOwnAddress(ls: seq<LeafRec>, info: LeafInfo)
    requires DistinctAddresses(ls)
    ensures DistinctAddresses(AddLeaf(ls, info))
  {
    if AddLeaf(ls, info) != ls {
      assert forall i | 0 <= i < |ls| :: ls[i].mgmt != info.mgmt || ls[i].address != info.address;
    }
  }

  class Topology {
    var Spines: map<u16, Node>
    var Leaves: map<u16, Node>
    var Servers: map<u16, Node>

    constructor ()
      ensures Valid() && Spines == map[] && Leaves == map[] && Servers == map[]
    {
      Spines, Leaves, Servers := map[], map[], map[];
    }

    ghost predicate Valid()
      reads this, Spines.Values, Leaves.Values, Servers.Values
    {
      && Keyed(Spines, SpineNode) && Keyed(Leaves, LeafNode) && Keyed(Servers, ServerNode)
      && Linked(Level(Spines, Leaves))
      && Linked(Level(Leaves, Servers))
    }

    /** The leaves below spine `p`, in order, as records. */
    ghost function LeavesOf(p: u16): seq<LeafRec>
      requires p in Spines
      reads this, Spines[p], Spines[p].Children, Grandchildren(Spines[p].Children)
    {
      LeafRecs(Spines[p].Children)
    }

    lemma ServersOfLeaf(l: Node, id: u16)
      requires Valid() && Holds(Leaves, l)
      ensures HasServer(LeafRecOf(l), id) <==> id in Servers && Servers[id].Parent == l
    {
      if HasServer(LeafRecOf(l), id) {
        var i :| 0 <= i < |l.Children| && LeafRecOf(l).servers[i].id == id;
        assert Leaves[l.ID].Children[i].ID == id;
      }
      if id in Servers && Servers[id].Parent == l {
        var i :| 0 <= i < |l.Children| && l.Children[i] == Servers[id];
        assert LeafRecOf(l).servers[i].id == id;
      }
    }

    lemma ChildIdsDiffer(l: Node, i: nat, j: nat)
      requires Valid() && Holds(Leaves, l) && i < j < |l.Children|
      ensures l.Children[i].ID != l.Children[j].ID
    {
      assert Leaves[l.ID].Children[i] != Leaves[l.ID].Children[j];
    }

    lemma NoServerAnywhere(id: u16)
      requires Valid() && id !in Servers
      ensures forall p | p in Spines :: !AnyHasServer(LeavesOf(p), id)
    {
      forall p, i | p in Spines && 0 <= i < |Spines[p].Children| ensures !HasServer(LeavesOf(p)[i], id) {
        var l := Spines[p].Children[i];
        assert Holds(Leaves, l);
        ServersOfLeaf(l, id);
      }
    }

    lemma LeafRecsDiffer(p: u16)
      requires Valid() && p in Spines
      ensures DistinctLeaves(LeavesOf(p))
    {
      var kids := Spines[p].Children;
      forall i, j | 0 <= i < j < |kids| ensures kids[i].ID != kids[j].ID {
        assert ParentOk(Spines[p]) && Holds(Leaves, kids[i]) && Holds(Leaves, kids[j]);
      }
    }

    /** The leaves other than `leafID` hold the same records as before. */
    twostate predicate OtherLeavesKept(new leafID: u16)
      reads *
    {
      Leaves == old(Leaves) &&
      forall k | k in Leaves && k != leafID ::
        LeafRecOf(Leaves[k]) == old(LeafRecOf(Leaves[k])) && Leaves[k].Children == old(Leaves[k].Children)
    }

    static twostate predicate Untouched(n: Node)
      reads n
    {
      && n.Children == old(n.Children) && n.Index == old(n.Index)
      && n.FirstWorkerID == old(n.FirstWorkerID) && n.LastWorkerID == old(n.LastWorkerID)
    }

    /** Only the leaf `leafID` and its servers changed, and no old node changed its parent. */
    twostate predicate OnlyBelow(new leafID: u16)
      reads *
    {
      && Spines == old(Spines) && Leaves == old(Leaves) && leafID in Leaves
      && (forall k | k in Spines :: Spines[k].Children == old(Spines[k].Children))
      && (forall k | k in Leaves :: Leaves[k].Parent == old(Leaves[k].Parent))
      && (forall k | k in Leaves && k != leafID :: Untouched(Leaves[k]))
      && (forall k | k in old(Servers) :: old(Servers[k]).Parent == old(Servers[k].Parent))
      && (forall k | k in old(Servers) && old(Servers[k].Parent) != Leaves[leafID] :: Untouched(old(Servers[k])))
    }

    twostate lemma KeepOthers(new leafID: u16)
      requires old(Valid()) && OnlyBelow(leafID)
      ensures OtherLeavesKept(leafID)
    {
      forall k | k in Leaves && k != leafID ensures LeafRecOf(Leaves[k]) == old(LeafRecOf(Leaves[k])) {
        var l := Leaves[k];
        assert old(ChildrenHeld(l, Servers) && ParentOk(l));
        forall i | 0 <= i < |l.Children| ensures ServerRecOf(l.Children[i]) == old(ServerRecOf(l.Children[i])) {
          assert old(Servers[l.Children[i].ID].Parent) == l;
        }
      }
    }

    // ---------- AddServerToLeaf ----------

    /** Appends a new server to `leaf`, right after the leaf's current worker range. */
    static method AppendChild(leaf: Node, info: ServerInfo) returns (server: Node)
      requires leaf !in leaf.Children
      modifies leaf`Children, leaf`FirstWorkerID, leaf`LastWorkerID
      ensures fresh(server) && server.ID == info.id && server.Type == ServerNode && server.Parent == leaf
      ensures !server.Healthy && !server.Ready
      ensures leaf.Children == old(leaf.Children) + [server]
      ensures LeafRecOf(leaf) == AppendServer(old(LeafRecOf(leaf)), info)
    {
      server := new Node.Server(info.address, info.id, info.port);
      server.Parent := leaf;
      leaf.Children := leaf.Children + [server];
      leaf.FirstWorkerID := 0;
      var workerID: u16 := 0;
      if leaf.LastWorkerID > 0 {
        workerID := Wrap(leaf.LastWorkerID + 1);
      }
      server.FirstWorkerID := workerID;
      server.LastWorkerID := Wrap(workerID + info.workers - 1);
      leaf.LastWorkerID := server.LastWorkerID;
      assert ServerRecOf(server) == TopologySpec.Added(old(leaf.LastWorkerID), info);
    }

    twostate lemma SpineAfterAddServer(new p: u16, new info: ServerInfo, new leafID: u16)
      requires p in old(Spines) && Spines == old(Spines) && Spines[p].Children == old(Spines[p].Children)
      requires old(Valid()) && OtherLeavesKept(leafID) && leafID in Leaves
      requires LeafRecOf(Leaves[leafID]) == AppendServer(old(LeafRecOf(Leaves[leafID])), info)
      requires !old(AnyHasServer(LeavesOf(p), info.id))
      ensures LeavesOf(p) == AddServer(old(LeavesOf(p)), info, leafID)
    {
      var kids := Spines[p].Children;
      forall i | 0 <= i < |kids|
        ensures LeavesOf(p)[i] == AppendServerTo(old(LeavesOf(p)), info, leafID)[i]
      {
        assert old(Holds(Leaves, kids[i]));
      }
    }

    twostate lemma AfterAttach(new leafID: u16, new server: Node)
      requires old(Valid()) && OnlyBelow(leafID)
      requires server.ID !in old(Servers) && server.Type == ServerNode
      requires Servers == old(Servers)[server.ID := server] && server.Parent == Leaves[leafID]
      requires Leaves[leafID].Children == old(Leaves[leafID].Children) + [server]
      ensures Valid() && OtherLeavesKept(leafID)
    {
      KeepOthers(leafID);
      LinkedFrame(Level(Spines, Leaves));
      LinkedAttach(Level(Leaves, old(Servers)), leafID, server);
    }

    /** The part of AddServerToLeaf after its checks. */
    method AttachServer(info: ServerInfo, leaf: Node) returns (server: Node)
      requires Valid() && Holds(Leaves, leaf) && info.id !in Servers
      modifies this`Servers, leaf`Children, leaf`FirstWorkerID, leaf`LastWorkerID
      ensures Valid()
      ensures fresh(server) && Servers == old(Servers)[info.id := server]
      ensures server.Parent == leaf && !server.Healthy && !server.Ready
      ensures leaf.Children == old(leaf.Children) + [server]
      ensures LeafRecOf(leaf) == AppendServer(old(LeafRecOf(leaf)), info)
      ensures OtherLeavesKept(leaf.ID)
    {
      hide LeafRecs, ServerRecs, ParentOk, ChildOk;
      assert leaf !in leaf.Children by {
        assert ChildrenHeld(leaf, Servers);
      }
      server := AppendChild(leaf, info);
      Servers := Servers[info.id := server];
      AfterAttach(leaf.ID, server);
    }

    ghost function AtMostLeaf(leafID: u16): set<Node>
      reads this
    {
      if leafID in Leaves then {Leaves[leafID]} else {}
    }

    twostate lemma SpinesAfterAddServer(new info: ServerInfo, new leafID: u16)
      requires Spines == old(Spines) && forall p | p in Spines :: Spines[p].Children == old(Spines[p].Children)
      requires old(Valid()) && OtherLeavesKept(leafID) && leafID in Leaves
      requires LeafRecOf(Leaves[leafID]) == AppendServer(old(LeafRecOf(Leaves[leafID])), info)
      requires forall p | p in Spines :: !old(AnyHasServer(LeavesOf(p), info.id))
      ensures forall p | p in Spines :: LeavesOf(p) == AddServer(old(LeavesOf(p)), info, leafID)
    {
      forall p | p in Spines ensures LeavesOf(p) == AddServer(old(LeavesOf(p)), info, leafID) {
        SpineAfterAddServer(p, info, leafID);
      }
    }

    method AddServerToLeaf(info: ServerInfo, leafID: u16) returns (r: AddResult)
      requires Valid()
      modifies this`Servers, AtMostLeaf(leafID)`Children
      modifies AtMostLeaf(leafID)`FirstWorkerID, AtMostLeaf(leafID)`LastWorkerID
      ensures Valid()
      ensures r.Added? <==> leafID in Leaves && info.id !in old(Servers)
      ensures r.Rejected? ==>
                r.reason == if leafID !in Leaves then NoSuchLeaf
                            else if old(Servers[info.id].Parent) == Leaves[leafID] then ServerExists
                            else ServerExistsElsewhere
      ensures r.Rejected? ==> Servers == old(Servers) && forall p | p in Spines :: LeavesOf(p) == old(LeavesOf(p))
      ensures r.Added? ==>
                && fresh(r.node) && Servers == old(Servers)[info.id := r.node]
                && !r.node.Healthy && !r.node.Ready
                && r.node.Parent == Leaves[leafID]
                && Leaves[leafID].Children == old(Leaves[leafID].Children) + [r.node]
      ensures r.Added? ==> forall p | p in Spines :: LeavesOf(p) == AddServer(old(LeavesOf(p)), info, leafID)
    {
      hide LeafRecs, ServerRecs, ParentOk, ChildOk;
      if leafID !in Leaves {
        return Rejected(NoSuchLeaf);
      }
      if info.id in Servers {
        return Rejected(if Servers[info.id].Parent == Leaves[leafID] then ServerExists else ServerExistsElsewhere);
      }
      NoServerAnywhere(info.id);
      var server := AttachServer(info, Leaves[leafID]);
      r := Added(server);
      SpinesAfterAddServer(info, leafID);
    }

    // ---------- AddLeafToSpine ----------

    /** Appends a new leaf to `spine`, indexed by its position. */
    static method AppendLeaf(spine: Node, info: LeafInfo) returns (leaf: Node)
      requires spine !in spine.Children
      modifies spine`Children
      ensures fresh(leaf) && leaf.ID == info.id && leaf.Type == LeafNode && leaf.Parent == spine && leaf.Children == []
      ensures spine.Children == old(spine.Children) + [leaf]
      ensures LeafRecOf(leaf) == FreshLeaf(info, Trunc(|old(spine.Children)|))
    {
      leaf := new Node.Leaf(info.address, info.mgmt, info.id, info.dsPort, info.usPort);
      leaf.Parent := spine;
      spine.Children := spine.Children + [leaf];
      leaf.Index := Trunc(|spine.Children| - 1);
      leaf.FirstWorkerID := 0;
      leaf.LastWorkerID := 0;
    }

    static method AddressInUseBelow(spine: Node, info: LeafInfo) returns (taken: bool)
      ensures taken <==> AddressTaken(LeafRecs(spine.Children), info)
      ensures taken <==>
              exists kid | kid in spine.Children :: kid.MgmtAddress == info.mgmt && kid.Address == info.address
    {
      var leaves := LeafRecs(spine.Children);
      for i := 0 to |spine.Children|
        invariant forall j | 0 <= j < i :: leaves[j].mgmt != info.mgmt || leaves[j].address != info.address
        invariant forall j | 0 <= j < i ::
                    spine.Children[j].MgmtAddress != info.mgmt || spine.Children[j].Address != info.address
      {
        var other := spine.Children[i];
        assert leaves[i] == LeafRecOf(other);
        if other.MgmtAddress == info.mgmt {
          if other.Address == info.address {
            return true;
          }
        }
      }
      return false;
    }

    twostate lemma LeafAttachKeepsValid(new spineID: u16, new leaf: Node)
      requires old(Valid()) && Spines == old(Spines) && Servers == old(Servers) && spineID in Spines
      requires leaf.ID !in old(Leaves) && leaf.Type == LeafNode && leaf.Children == []
      requires Leaves == old(Leaves)[leaf.ID := leaf] && leaf.Parent == Spines[spineID]
      requires Spines[spineID].Children == old(Spines[spineID].Children) + [leaf]
      requires forall k | k in Spines && k != spineID :: Spines[k].Children == old(Spines[k].Children)
      requires forall k | k in old(Leaves) :: Leaves[k].Children == old(Leaves[k].Children)
      requires SameParents(Level(old(Spines), old(Leaves))) && SameParents(Level(old(Leaves), old(Servers)))
      ensures Valid()
    {
      assert Linked(Level(Spines, Leaves)) by {
        LinkedAttach(Level(Spines, old(Leaves)), spineID, leaf);
      }
      assert Linked(Level(Leaves, Servers)) by {
        LinkedFrame(Level(old(Leaves), Servers));
        LinkedMore(Level(old(Leaves), Servers), leaf);
      }
    }

    twostate predicate LeavesKept()
      reads *
    {
      forall k | k in old(Leaves) && k in Leaves :: LeafRecOf(Leaves[k]) == old(LeafRecOf(Leaves[k]))
    }

    twostate lemma KeepAllLeaves()
      requires old(Valid()) && forall k | k in old(Leaves) :: k in Leaves && Leaves[k] == old(Leaves[k])
      requires forall k | k in old(Leaves) :: Untouched(old(Leaves[k]))
      requires forall k | k in old(Servers) :: Untouched(old(Servers[k]))
      ensures LeavesKept()
    {
      forall k | k in old(Leaves) ensures LeafRecOf(Leaves[k]) == old(LeafRecOf(Leaves[k])) {
        var l := Leaves[k];
        assert old(ChildrenHeld(l, Servers));
        forall i | 0 <= i < |l.Children| ensures ServerRecOf(l.Children[i]) == old(ServerRecOf(l.Children[i])) {
          assert old(Servers[l.Children[i].ID]) == l.Children[i];
        }
      }
    }

    /** The part of AddLeafToSpine after its checks. */
    method AttachLeaf(info: LeafInfo, spine: Node) returns (leaf: Node)
      requires Valid() && Holds(Spines, spine) && info.id !in Leaves
      modifies this`Leaves, spine`Children
      ensures Valid()
      ensures fresh(leaf) && Leaves == old(Leaves)[info.id := leaf]
      ensures leaf.Parent == spine && leaf.Children == []
      ensures spine.Children == old(spine.Children) + [leaf]
      ensures LeafRecOf(leaf) == FreshLeaf(info, Trunc(|old(spine.Children)|))
      ensures LeavesKept()
    {
      hide LeafRecs, ServerRecs, ParentOk, ChildOk;
      assert spine !in spine.Children by {
        assert ChildrenHeld(spine, Leaves);
      }
      leaf := AppendLeaf(spine, info);
      Leaves := Leaves[info.id := leaf];
      KeepAllLeaves();
      LeafAttachKeepsValid(spine.ID, leaf);
    }

    twostate lemma SpineAfterAddLeaf(new p: u16, new info: LeafInfo, new spineID: u16)
      requires p in old(Spines) && Spines == old(Spines) && spineID in Spines && info.id !in old(Leaves)
      requires old(Valid()) && LeavesKept() && Leaves.Keys == old(Leaves).Keys + {info.id}
      requires forall k | k in old(Leaves) :: Leaves[k] == old(Leaves[k])
      requires LeafRecOf(Leaves[info.id]) == FreshLeaf(info, Trunc(|old(Spines[spineID].Children)|))
      requires Spines[p].Children == old(Spines[p].Children) + if p == spineID then [Leaves[info.id]] else []
      requires !old(AddressTaken(LeavesOf(spineID), info))
      ensures LeavesOf(p) == if p == spineID then AddLeaf(old(LeavesOf(p)), info) else old(LeavesOf(p))
    {
      var kids := old(Spines[p].Children);
      assert old(ChildrenHeld(Spines[p], Leaves));
      forall i | 0 <= i < |kids| ensures LeavesOf(p)[i] == old(LeavesOf(p))[i] && kids[i].ID != info.id {
        assert old(Holds(Leaves, kids[i]));
      }
    }

    twostate lemma SpinesAfterAddLeaf(new info: LeafInfo, new spineID: u16)
      requires Spines == old(Spines) && spineID in Spines && info.id !in old(Leaves)
      requires old(Valid()) && LeavesKept() && Leaves.Keys == old(Leaves).Keys + {info.id}
      requires forall k | k in old(Leaves) :: Leaves[k] == old(Leaves[k])
      requires LeafRecOf(Leaves[info.id]) == FreshLeaf(info, Trunc(|old(Spines[spineID].Children)|))
      requires forall p | p in Spines ::
                 Spines[p].Children == old(Spines[p].Children) + if p == spineID then [Leaves[info.id]] else []
      requires !old(AddressTaken(LeavesOf(spineID), info))
      ensures forall p | p in Spines ::
                LeavesOf(p) == if p == spineID then AddLeaf(old(LeavesOf(p)), info) else old(LeavesOf(p))
      ensures old(DistinctAddresses(LeavesOf(spineID))) ==> DistinctAddresses(LeavesOf(spineID))
    {
      if old(DistinctAddresses(LeavesOf(spineID))) {
        AddedHasOwnAddress(old(LeavesOf(spineID)), info);
      }
      forall p | p in Spines
        ensures LeavesOf(p) == if p == spineID then AddLeaf(old(LeavesOf(p)), info) else old(LeavesOf(p))
      {
        SpineAfterAddLeaf(p, info, spineID);
      }
    }

    ghost function AtMostSpine(spineID: u16): set<Node>
      reads this
    {
      if spineID in Spines then {Spines[spineID]} else {}
    }

    /** The checks of AddLeafToSpine. */
    method RefuseLeaf(info: LeafInfo, spineID: u16) returns (why: Option<Reason>)
      requires Valid()
      ensures why.None? <==> spineID in Spines && info.id !in Leaves && !AddressTaken(LeavesOf(spineID), info)
      ensures why.Some? ==>
                why.value == if spineID !in Spines then NoSuchSpine
                             else if info.id !in Leaves then AddressInUse
                             else if Leaves[info.id].Parent == Spines[spineID] then LeafExists
                             else LeafExistsElsewhere
      ensures forall p | p in Spines :: LeavesOf(p) == old(LeavesOf(p))
      ensures spineID in Spines && info.id !in Leaves ==>
                (why == Some(AddressInUse) <==>
                 exists kid | kid in Spines[spineID].Children ::
                   kid.MgmtAddress == info.mgmt && kid.Address == info.address)
    {
      if spineID !in Spines {
        return Some(NoSuchSpine);
      }
      if info.id in Leaves {
        return Some(if Leaves[info.id].Parent == Spines[spineID] then LeafExists else LeafExistsElsewhere);
      }
      var taken := AddressInUseBelow(Spines[spineID], info);
      return if taken then Some(AddressInUse) else None;
    }

    method AddLeafToSpine(info: LeafInfo, spineID: u16) returns (r: AddResult)
      requires Valid()
      modifies this`Leaves, AtMostSpine(spineID)`Children
      ensures Valid()
      ensures r.Added? <==> spineID in Spines && info.id !in old(Leaves) && !AddressTaken(old(LeavesOf(spineID)), info)
      ensures r.Rejected? ==>
                r.reason == if spineID !in Spines then NoSuchSpine
                            else if info.id !in old(Leaves) then AddressInUse
                            else if old(Leaves[info.id].Parent) == Spines[spineID] then LeafExists
                            else LeafExistsElsewhere
      ensures spineID in Spines && info.id !in old(Leaves) ==>
                (r == Rejected(AddressInUse) <==>
                 exists kid | kid in old(Spines[spineID].Children) ::
                   kid.MgmtAddress == info.mgmt && kid.Address == info.address)
      ensures spineID in Spines && old(DistinctAddresses(LeavesOf(spineID))) ==> DistinctAddresses(LeavesOf(spineID))
      ensures r.Rejected? ==> Leaves == old(Leaves) && forall p | p in Spines :: LeavesOf(p) == old(LeavesOf(p))
      ensures r.Added? ==>
                && fresh(r.node) && Leaves == old(Leaves)[info.id := r.node]
                && r.node.Parent == Spines[spineID]
                && Spines[spineID].Children == old(Spines[spineID].Children) + [r.node]
      ensures r.Added? ==> forall p | p in Spines ::
                LeavesOf(p) == if p == spineID then AddLeaf(old(LeavesOf(p)), info) else old(LeavesOf(p))
    {
      hide LeafRecs, ServerRecs, ParentOk, ChildOk, AddressTaken, DistinctAddresses, AddLeaf;
      var why := RefuseLeaf(info, spineID);
      if why.Some? {
        return Rejected(why.value);
      }
      var leaf := AttachLeaf(info, Spines[spineID]);
      r := Added(leaf);
      SpinesAfterAddLeaf(info, spineID);
    }

    // ---------- RemoveServer ----------

    /** Gives a server the range that starts at `workerID`, keeping its number of workers. */
    static method MoveTo(srv: Node, workerID: u16) returns (next: u16)
      modifies srv`FirstWorkerID, srv`LastWorkerID
      ensures ServerRecOf(srv) == Place(InfoOf(old(ServerRecOf(srv))), workerID)
      ensures next == Wrap(workerID + InfoOf(old(ServerRecOf(srv))).workers)
    {
      var workersCount := Wrap(srv.LastWorkerID - srv.FirstWorkerID + 1);
      srv.FirstWorkerID := workerID;
      next := Wrap(workerID + workersCount);
      srv.LastWorkerID := Wrap(next - 1);
    }

    /** `starts[k]` is the running worker ID ahead of child k when the child `serverID` is passed over. */
    static ghost predicate RunningIDs(starts: seq<u16>, cs: seq<ServerInfo>, serverID: u16) {
      && |starts| == |cs| + 1 && starts[0] == 0
      && forall i {:trigger cs[i]} | 0 <= i < |cs| ::
           starts[i+1] == if cs[i].id == serverID then starts[i] else Wrap(starts[i] + cs[i].workers)
    }

    /** The loop of RemoveServer: hands out the worker IDs of the children afresh, passing over the
        removed one (the only child with that ID, at position r), and collects the children behind it. */
    static method Renumber(kids: seq<Node>, serverID: u16, ghost r: nat, ghost starts: seq<u16>)
      returns (removedIdx: int, updated: seq<Node>, workerID: u16)
      requires r < |kids| && forall i | 0 <= i < |kids| :: kids[i].ID == serverID <==> i == r
      requires forall i, j | 0 <= i < j < |kids| :: kids[i] != kids[j]
      requires RunningIDs(starts, Contents(ServerRecs(kids)), serverID)
      modifies kids`FirstWorkerID, kids`LastWorkerID
      ensures removedIdx == r && updated == kids[r+1..] && workerID == starts[|kids|]
      ensures forall i {:trigger ServerRecOf(kids[i])} | 0 <= i < |kids| && i != r ::
                ServerRecOf(kids[i]) == Place(InfoOf(old(ServerRecOf(kids[i]))), starts[i])
    {
      workerID, removedIdx, updated := 0, -1, [];
      ghost var cs := Contents(ServerRecs(kids));
      for sIdx := 0 to |kids|
        invariant removedIdx == if sIdx <= r then -1 else r
        invariant |updated| == if sIdx <= r then 0 else sIdx - r - 1
        invariant forall j | 0 <= j < |updated| :: updated[j] == kids[r + 1 + j]
        invariant workerID == starts[sIdx]
        invariant forall i {:trigger ServerRecOf(kids[i])} | sIdx <= i < |kids| :: InfoOf(ServerRecOf(kids[i])) == cs[i]
        invariant forall i {:trigger ServerRecOf(kids[i])} | 0 <= i < sIdx && i != r ::
                    ServerRecOf(kids[i]) == Place(cs[i], starts[i])
      {
        var srv := kids[sIdx];
        assert InfoOf(ServerRecOf(srv)) == cs[sIdx];
        if srv.ID != serverID {
          workerID := MoveTo(srv, workerID);
          if removedIdx > -1 {
            updated := updated + [srv];
          }
        } else {
          removedIdx := sIdx;
        }
      }
    }

    /** The worker range of a leaf whose next free worker ID is `workerID`. */
    static method SetRange(leaf: Node, workerID: u16)
      modifies leaf`FirstWorkerID, leaf`LastWorkerID
      ensures leaf.FirstWorkerID == 0
      ensures leaf.LastWorkerID == if workerID == 0 then 0 else workerID - 1
    {
      leaf.FirstWorkerID := 0;
      if workerID == 0 {
        leaf.LastWorkerID := 0;
      } else {
        leaf.LastWorkerID := workerID - 1;
      }
    }

    static lemma StartsOf(cs: seq<ServerInfo>, serverID: u16) returns (starts: seq<u16>)
      ensures RunningIDs(starts, cs, serverID)
      ensures forall i {:trigger starts[i]} | 0 <= i <= |cs| :: starts[i] == StartOf(cs, serverID, i)
    {
      starts := seq(|cs| + 1, i requires 0 <= i <= |cs| => StartOf(cs, serverID, i));
    }

    static lemma DroppedFrom(was: LeafRec, now: LeafRec, serverID: u16, r: nat, starts: seq<u16>)
      requires r < |was.servers| && forall i | 0 <= i < |was.servers| :: was.servers[i].id == serverID <==> i == r
      requires |starts| == |was.servers| + 1
      requires forall i {:trigger starts[i]} | 0 <= i <= |was.servers| ::
                 starts[i] == StartOf(Contents(was.servers), serverID, i)
      requires |now.servers| == |was.servers| - 1
      requires forall q | 0 <= q < |now.servers| ::
                 now.servers[q] == Place(InfoOf(was.servers[Skip(r, q)]), starts[Skip(r, q)])
      requires now == was.(servers := now.servers, first := 0,
                           last := if starts[|was.servers|] == 0 then 0 else starts[|was.servers|] - 1)
      ensures now == DropServers(was, {serverID})
    {
      var cs := Contents(was.servers);
      forall q | 0 <= q < |now.servers|
        ensures now.servers[q] == Place(cs[Skip(r, q)], StartOf(cs, serverID, Skip(r, q))) {
      }
      LaidAround(now.servers, cs, r);
    }

    /** RemoveServer on the owning leaf. */
    static method DropChild(leaf: Node, serverID: u16, ghost r: nat) returns (updated: seq<Node>)
      requires leaf !in leaf.Children
      requires r < |leaf.Children|
      requires forall i | 0 <= i < |leaf.Children| :: leaf.Children[i].ID == serverID <==> i == r
      requires forall i, j | 0 <= i < j < |leaf.Children| :: leaf.Children[i] != leaf.Children[j]
      modifies leaf`Children, leaf`FirstWorkerID, leaf`LastWorkerID
      modifies leaf.Children`FirstWorkerID, leaf.Children`LastWorkerID
      ensures leaf.Children == old(leaf.Children)[..r] + old(leaf.Children)[r+1..]
      ensures updated == old(leaf.Children)[r+1..]
      ensures LeafRecOf(leaf) == DropServers(old(LeafRecOf(leaf)), {serverID})
    {
      hide DropServers, StartOf, Place, InfoOf;
      var kids := leaf.Children;
      ghost var was := LeafRecOf(leaf);
      ghost var starts := StartsOf(Contents(was.servers), serverID);
      var removedIdx, workerID;
      removedIdx, updated, workerID := Renumber(kids, serverID, r, starts);
      SetRange(leaf, workerID);
      leaf.Children := kids[..removedIdx] + kids[removedIdx+1..];
      SpliceAt(kids, r);
      DroppedFrom(was, LeafRecOf(leaf), serverID, r, starts);
    }

    lemma PlaceOfServer(id: u16) returns (leaf: Node, r: nat)
      requires Valid() && id in Servers
      ensures leaf == Servers[id].Parent && Holds(Leaves, leaf) && leaf !in leaf.Children
      ensures r < |leaf.Children| && leaf.Children[r] == Servers[id]
      ensures forall i | 0 <= i < |leaf.Children| :: leaf.Children[i].ID == id <==> i == r
      ensures forall i, j | 0 <= i < j < |leaf.Children| :: leaf.Children[i] != leaf.Children[j]
    {
      assert ChildOk(Servers[id], Leaves);
      leaf := Servers[id].Parent;
      assert ChildrenHeld(leaf, Servers) && ParentOk(leaf);
      r :| 0 <= r < |leaf.Children| && leaf.Children[r] == Servers[id];
      forall i | 0 <= i < |leaf.Children| ensures leaf.Children[i].ID == id <==> i == r {
        assert Holds(Servers, leaf.Children[i]);
      }
    }

    twostate lemma AfterDetach(new leafID: u16, new r: nat)
      requires old(Valid()) && OnlyBelow(leafID)
      requires r < |old(Leaves[leafID].Children)|
      requires Servers == old(Servers) - {old(Leaves[leafID].Children)[r].ID}
      requires Leaves[leafID].Children == old(Leaves[leafID].Children)[..r] + old(Leaves[leafID].Children)[r+1..]
      ensures Valid() && OtherLeavesKept(leafID)
    {
      KeepOthers(leafID);
      LinkedFrame(Level(Spines, Leaves));
      LinkedDetach(Level(Leaves, old(Servers)), leafID, r);
    }

    twostate lemma OldOwner(new id: u16, new k: u16)
      requires old(Valid()) && k in old(Leaves) && id in old(Servers)
      ensures old(HasServer(LeafRecOf(Leaves[k]), id)) <==> old(Servers[id].Parent) == old(Leaves[k])
    {
      var l := old(Leaves[k]);
      assert old(ChildrenHeld(l, Servers) && ParentOk(l) && ChildOk(Servers[id], Leaves));
      if old(HasServer(LeafRecOf(l), id)) {
        var i :| 0 <= i < |old(l.Children)| && old(LeafRecOf(l)).servers[i].id == id;
        assert old(Servers[id]) == old(l.Children)[i];
      }
      if old(Servers[id].Parent) == l {
        var i :| 0 <= i < |old(l.Children)| && old(l.Children)[i] == old(Servers[id]);
        assert old(LeafRecOf(l)).servers[i].id == id;
      }
    }

    twostate lemma SpinesAfterRemoveServer(new id: u16, new leafID: u16)
      requires Spines == old(Spines) && forall p | p in Spines :: Spines[p].Children == old(Spines[p].Children)
      requires old(Valid()) && OtherLeavesKept(leafID) && leafID in Leaves
      requires LeafRecOf(Leaves[leafID]) == DropServers(old(LeafRecOf(Leaves[leafID])), {id})
      requires id in old(Servers) && old(Servers[id].Parent) == Leaves[leafID]
      ensures forall p | p in Spines :: LeavesOf(p) == TopologySpec.RemoveServer(old(LeavesOf(p)), id)
    {
      forall k | k in Leaves ensures old(HasServer(LeafRecOf(Leaves[k]), id)) <==> k == leafID {
        OldOwner(id, k);
      }
      forall p, i | p in Spines && 0 <= i < |Spines[p].Children|
        ensures LeavesOf(p)[i] == TopologySpec.RemoveServer(old(LeavesOf(p)), id)[i]
      {
        assert old(Holds(Leaves, Spines[p].Children[i]));
      }
    }

    /** What RemoveServer changes: the server at position r below its leaf is gone from tree and map,
        the leaf's other servers are renumbered, and `updated` are those behind it. */
    twostate predicate ServerRemoved(new serverID: u16, new leafID: u16, new r: nat, new updated: seq<Node>)
      reads *
    {
      && Leaves == old(Leaves) && leafID in Leaves && serverID in old(Servers)
      && old(Servers[serverID].Parent) == Leaves[leafID]
      && OnlyBelow(leafID)
      && r < |old(Leaves[leafID].Children)| && old(Leaves[leafID].Children)[r] == old(Servers[serverID])
      && Leaves[leafID].Children == old(Leaves[leafID].Children)[..r] + old(Leaves[leafID].Children)[r+1..]
      && updated == old(Leaves[leafID].Children)[r+1..]
      && LeafRecOf(Leaves[leafID]) == DropServers(old(LeafRecOf(Leaves[leafID])), {serverID})
      && OtherLeavesKept(leafID)
    }

    /** The part of RemoveServer after the server was found. */
    method DetachServer(server: Node, leaf: Node, ghost r: nat) returns (updated: seq<Node>)
      requires Valid() && Holds(Servers, server) && server.Parent == leaf && Holds(Leaves, leaf) &&
               leaf !in leaf.Children
      requires r < |leaf.Children| && leaf.Children[r] == server
      requires forall i | 0 <= i < |leaf.Children| :: leaf.Children[i].ID == server.ID <==> i == r
      requires forall i, j | 0 <= i < j < |leaf.Children| :: leaf.Children[i] != leaf.Children[j]
      modifies this`Servers, leaf`Children, leaf`FirstWorkerID, leaf`LastWorkerID
      modifies leaf.Children`FirstWorkerID, leaf.Children`LastWorkerID
      ensures Valid() && Servers == old(Servers) - {server.ID}
      ensures ServerRemoved(server.ID, leaf.ID, r, updated)
    {
      hide LeafRecs, ServerRecs, ChildOk, LeafRecOf, Lay, Contents, DropServers;
      updated := DropChild(leaf, server.ID, r);
      ghost var rec := LeafRecOf(leaf);
      forall k | k in Servers && old(Servers[k].Parent) != leaf ensures Untouched(Servers[k]) {
        assert Servers[k] != leaf && Servers[k] !in old(leaf.Children);
      }
      Servers := Servers - {server.ID};
      assert LeafRecOf(leaf) == rec;
      AfterDetach(leaf.ID, r);
    }

    method RemoveServer(serverID: u16) returns (removed: bool, updated: seq<Node>, ghost leafID: u16, ghost r: nat)
      requires Valid()
      modifies this`Servers, Leaves.Values`Children, Leaves.Values`FirstWorkerID, Leaves.Values`LastWorkerID
      modifies Servers.Values`FirstWorkerID, Servers.Values`LastWorkerID
      ensures Valid() && Servers == old(Servers) - {serverID}
      ensures removed <==> serverID in old(Servers)
      ensures !removed ==> updated == [] && forall k | k in Leaves :: LeafRecOf(Leaves[k]) == old(LeafRecOf(Leaves[k]))
      ensures removed ==> ServerRemoved(serverID, leafID, r, updated)
      ensures forall p | p in Spines :: LeavesOf(p) == TopologySpec.RemoveServer(old(LeavesOf(p)), serverID)
    {
      if serverID !in Servers {
        NoServerAnywhere(serverID);
        return false, [], 0, 0;
      }
      removed := true;
      updated, leafID, r := RemoveFound(serverID);
    }

    method RemoveFound(serverID: u16) returns (updated: seq<Node>, ghost leafID: u16, ghost r: nat)
      requires Valid() && serverID in Servers
      modifies this`Servers, Leaves.Values`Children, Leaves.Values`FirstWorkerID, Leaves.Values`LastWorkerID
      modifies Servers.Values`FirstWorkerID, Servers.Values`LastWorkerID
      ensures Valid() && Servers == old(Servers) - {serverID}
      ensures ServerRemoved(serverID, leafID, r, updated)
      ensures forall p | p in Spines :: LeavesOf(p) == TopologySpec.RemoveServer(old(LeavesOf(p)), serverID)
    {
      ghost var leaf;
      leaf, r := PlaceOfServer(serverID);
      leafID := leaf.ID;
      assert forall c | c in leaf.Children :: c in Servers.Values by { assert ChildrenHeld(leaf, Servers); }
      updated := DetachServer(Servers[serverID], Servers[serverID].Parent, r);
      SpinesAfterRemoveServer(serverID, leafID);
    }

    // ---------- RemoveLeaf ----------

    /** Some servers of `leaf` are gone, and nothing happened elsewhere. */
    twostate predicate OnlyLost(leaf: Node)
      reads *
    {
      && OtherLeavesKept(leaf.ID)
      && Spines == old(Spines) && (forall p | p in Spines :: Spines[p].Children == old(Spines[p].Children))
      && (forall k | k in Servers :: k in old(Servers) && Servers[k] == old(Servers[k]))
      && (forall k | k in old(Servers) && old(Servers[k].Parent) != leaf :: k in Servers)
    }

    /** The first child of a leaf is in `Servers` with this leaf as its parent, so the call does
        remove it. */
    method RemoveFirstServer(leaf: Node)
      requires Valid() && Holds(Leaves, leaf) && |leaf.Children| != 0
      modifies this`Servers, Leaves.Values`Children, Leaves.Values`FirstWorkerID, Leaves.Values`LastWorkerID
      modifies Servers.Values`FirstWorkerID, Servers.Values`LastWorkerID
      ensures Valid() && |leaf.Children| == |old(leaf.Children)| - 1 && OnlyLost(leaf)
    {
      hide LeafRecs, LeafRecOf, ServerRecs, ChildOk;
      assert ChildrenHeld(leaf, Servers) && ParentOk(leaf);
      var removed, updated, leafID, r := RemoveServer(leaf.Children[0].ID);
    }

    /** The first loop of RemoveLeaf. */
    method RemoveAllServers(leaf: Node)
      requires Valid() && Holds(Leaves, leaf)
      modifies this`Servers, Leaves.Values`Children, Leaves.Values`FirstWorkerID, Leaves.Values`LastWorkerID
      modifies Servers.Values`FirstWorkerID, Servers.Values`LastWorkerID
      ensures Valid() && leaf.Children == [] && OnlyLost(leaf)
    {
      hide LeafRecs, LeafRecOf, ServerRecs, ParentOk, ChildOk, ChildrenHeld, Linked;
      while |leaf.Children| != 0
        invariant Valid() && Holds(Leaves, leaf) && OnlyLost(leaf)
        decreases |leaf.Children|
      {
        RemoveFirstServer(leaf);
      }
    }

    /** The second loop of RemoveLeaf: the siblings behind the removed leaf (at position r) move
        down by one index and are collected. */
    static method ShiftDown(kids: seq<Node>, leafID: u16, ghost r: nat) returns (removedIdx: int, updated: seq<Node>)
      requires r < |kids| && forall i | 0 <= i < |kids| :: kids[i].ID == leafID <==> i == r
      requires forall i, j | 0 <= i < j < |kids| :: kids[i] != kids[j]
      modifies kids`Index
      ensures removedIdx == r && updated == kids[r+1..]
      ensures forall i {:trigger kids[i]} | 0 <= i < |kids| ::
                kids[i].Index == if i <= r then old(kids[i].Index) else Wrap(old(kids[i].Index) - 1)
    {
      removedIdx, updated := 0, [];
      var behind := false;
      for lIdx := 0 to |kids|
        invariant behind <==> r < lIdx
        invariant removedIdx == if behind then r else 0
        invariant |updated| == if behind then lIdx - r - 1 else 0
        invariant forall j | 0 <= j < |updated| :: updated[j] == kids[r + 1 + j]
        invariant forall i {:trigger kids[i]} | 0 <= i < |kids| ::
                    kids[i].Index == if r < i < lIdx then Wrap(old(kids[i].Index) - 1) else old(kids[i].Index)
      {
        var l := kids[lIdx];
        if l.ID == leafID {
          removedIdx, behind := lIdx, true;
        } else if behind {
          l.Index := Wrap(l.Index - 1);
          updated := updated + [l];
        }
      }
    }

    lemma PlaceOfLeaf(leafID: u16) returns (spine: Node, r: nat)
      requires Valid() && leafID in Leaves
      ensures spine == Leaves[leafID].Parent && Holds(Spines, spine)
      ensures r < |spine.Children| && spine.Children[r] == Leaves[leafID]
      ensures forall i | 0 <= i < |spine.Children| :: spine.Children[i].ID == leafID <==> i == r
      ensures forall i, j | 0 <= i < j < |spine.Children| :: spine.Children[i] != spine.Children[j]
    {
      assert ChildOk(Leaves[leafID], Spines);
      spine := Leaves[leafID].Parent;
      assert ChildrenHeld(spine, Leaves) && ParentOk(spine);
      r :| 0 <= r < |spine.Children| && spine.Children[r] == Leaves[leafID];
      forall i | 0 <= i < |spine.Children| ensures spine.Children[i].ID == leafID <==> i == r {
        assert Holds(Leaves, spine.Children[i]);
      }
    }

    /** Of the remaining leaves nothing but the index changed, and that only below `spineID`, where
        it went down by one behind position r. */
    twostate predicate IndexesShifted(new spineID: u16, new r: nat)
      reads *
    {
      && Spines == old(Spines) && spineID in Spines &&
        (forall k | k in Leaves :: k in old(Leaves) && Leaves[k] == old(Leaves[k]))
      && (forall k | k in Leaves :: LeafRecOf(Leaves[k]) == old(LeafRecOf(Leaves[k])).(index := Leaves[k].Index))
      && (forall i {:trigger old(Spines[spineID].Children)[i]} | 0 <= i < |old(Spines[spineID].Children)| && i != r ::
            old(Spines[spineID].Children)[i].Index ==
            if i < r then old(Spines[spineID].Children[i].Index) else Wrap(old(Spines[spineID].Children[i].Index) - 1))
      && (forall k | k in Leaves && Leaves[k] !in old(Spines[spineID].Children) ::
          Leaves[k].Index == old(Leaves[k].Index))
    }

    /** Only the indexes of leaves and the child list of one spine changed. */
    twostate predicate OnlyIndexes(new spineID: u16)
      reads *
    {
      && Spines == old(Spines) && Servers == old(Servers) && spineID in Spines
      && (forall k | k in Spines && k != spineID :: Spines[k].Children == old(Spines[k].Children))
      && (forall k | k in old(Leaves) :: old(Leaves[k]).Parent == old(Leaves[k].Parent))
      && (forall k | k in old(Leaves) :: SameButIndex(old(Leaves[k])))
      && (forall k | k in Servers :: Servers[k].Parent == old(Servers[k].Parent))
      && (forall k | k in Servers :: Untouched(Servers[k]))
    }

    static twostate predicate SameButIndex(n: Node)
      reads n
    {
      && n.Children == old(n.Children)
      && n.FirstWorkerID == old(n.FirstWorkerID) && n.LastWorkerID == old(n.LastWorkerID)
    }

    twostate lemma IndexIsAllThatChanged(new spineID: u16, new k: u16)
      requires old(Valid()) && OnlyIndexes(spineID) && k in old(Leaves) && k in Leaves && Leaves[k] == old(Leaves[k])
      ensures LeafRecOf(Leaves[k]) == old(LeafRecOf(Leaves[k])).(index := Leaves[k].Index)
    {
      var l := Leaves[k];
      assert old(ChildrenHeld(l, Servers));
      forall i | 0 <= i < |l.Children| ensures ServerRecOf(l.Children[i]) == old(ServerRecOf(l.Children[i])) {
        assert old(Servers[l.Children[i].ID]) == l.Children[i];
      }
    }

    /** Nothing changes between the other leaves and their servers. */
    twostate lemma ServersStayLinked(new spineID: u16, new r: nat)
      requires old(Valid()) && OnlyIndexes(spineID)
      requires r < |old(Spines[spineID].Children)|
      requires old(Spines[spineID].Children[r].Children) == []
      requires Leaves == old(Leaves) - {old(Spines[spineID].Children)[r].ID}
      ensures Linked(Level(Leaves, Servers))
    {
      var leaf := old(Spines[spineID].Children[r]);
      assert old(ChildrenHeld(Spines[spineID], Leaves));
      LinkedFrame(Level(old(Leaves), Servers));
      LinkedLess(Level(old(Leaves), Servers), leaf.ID);
    }

    twostate lemma AfterLeafDetach(new spineID: u16, new r: nat)
      requires old(Valid()) && OnlyIndexes(spineID)
      requires r < |old(Spines[spineID].Children)|
      requires old(Spines[spineID].Children[r].Children) == []
      requires Leaves == old(Leaves) - {old(Spines[spineID].Children)[r].ID}
      requires Spines[spineID].Children == old(Spines[spineID].Children)[..r] + old(Spines[spineID].Children)[r+1..]
      requires forall i {:trigger old(Spines[spineID].Children)[i]} |
                 0 <= i < |old(Spines[spineID].Children)| && i != r ::
                 old(Spines[spineID].Children)[i].Index ==
                 if i < r then old(Spines[spineID].Children[i].Index)
                 else Wrap(old(Spines[spineID].Children[i].Index) - 1)
      requires forall k | k in Leaves && Leaves[k] !in old(Spines[spineID].Children) ::
               Leaves[k].Index == old(Leaves[k].Index)
      ensures Valid() && IndexesShifted(spineID, r)
    {
      hide ParentOk, ChildOk;
      LinkedDetach(Level(Spines, old(Leaves)), spineID, r);
      ServersStayLinked(spineID, r);
      forall k | k in Leaves { IndexIsAllThatChanged(spineID, k); }
    }

    static method SpliceLeaf(spine: Node, leafID: u16, ghost r: nat) returns (removedIdx: int, updated: seq<Node>)
      requires r < |spine.Children|
      requires forall i | 0 <= i < |spine.Children| :: spine.Children[i].ID == leafID <==> i == r
      requires forall i, j | 0 <= i < j < |spine.Children| :: spine.Children[i] != spine.Children[j]
      modifies spine`Children, spine.Children`Index
      ensures removedIdx == r && updated == old(spine.Children)[r+1..]
      ensures spine.Children == old(spine.Children)[..r] + old(spine.Children)[r+1..]
      ensures forall i {:trigger old(spine.Children)[i]} | 0 <= i < |old(spine.Children)| ::
                old(spine.Children)[i].Index ==
                if i <= r then old(spine.Children[i].Index) else Wrap(old(spine.Children[i].Index) - 1)
    {
      removedIdx, updated := ShiftDown(spine.Children, leafID, r);
      spine.Children := spine.Children[..removedIdx] + spine.Children[removedIdx+1..];
    }

    /** The second part of RemoveLeaf, when the leaf has no servers any more. */
    method DetachLeaf(leaf: Node, spine: Node, ghost r: nat) returns (removedIdx: int, updated: seq<Node>)
      requires Valid() && Holds(Leaves, leaf) && leaf.Children == [] && leaf.Parent == spine && Holds(Spines, spine)
      requires r < |spine.Children| && spine.Children[r] == leaf
      requires forall i | 0 <= i < |spine.Children| :: spine.Children[i].ID == leaf.ID <==> i == r
      requires forall i, j | 0 <= i < j < |spine.Children| :: spine.Children[i] != spine.Children[j]
      modifies this`Leaves, spine`Children, spine.Children`Index
      ensures Valid() && Leaves == old(Leaves) - {leaf.ID}
      ensures removedIdx == r && updated == old(spine.Children)[r+1..]
      ensures spine.Children == old(spine.Children)[..r] + old(spine.Children)[r+1..]
      ensures IndexesShifted(spine.ID, r)
    {
      hide LeafRecOf, ServerRecs, LeafRecs, ParentOk, ChildOk;
      removedIdx, updated := SpliceLeaf(spine, leaf.ID, r);
      Leaves := Leaves - {leaf.ID};
      forall k | k in Servers ensures Untouched(Servers[k]) {
        assert old(Servers[k] != spine && Servers[k] !in spine.Children) by { assert old(ChildrenHeld(spine, Leaves)); }
      }
      AfterLeafDetach(spine.ID, r);
    }

    twostate lemma SiblingsAfterRemoveLeaf(new leafID: u16, new spineID: u16, new r: nat)
      requires old(Valid()) && IndexesShifted(spineID, r)
      requires leafID in old(Leaves) && Leaves == old(Leaves) - {leafID}
      requires r < |old(Spines[spineID].Children)| && old(Spines[spineID].Children)[r] == old(Leaves[leafID])
      requires Spines[spineID].Children == old(Spines[spineID].Children)[..r] + old(Spines[spineID].Children)[r+1..]
      ensures LeavesOf(spineID) == RemoveLeafAtPosition(old(LeavesOf(spineID)), r)
    {
      hide Keyed, ChildOk, LeafRecs;
      var kids, was := old(Spines[spineID].Children), old(LeavesOf(spineID));
      assert old(ChildrenHeld(Spines[spineID], Leaves) && ParentOk(Spines[spineID]));
      SpliceAt(kids, r);
      forall q | 0 <= q < |kids| - 1 ensures LeavesOf(spineID)[q] == RemoveLeafAtPosition(was, r)[q] {
        var l := kids[Skip(r, q)];
        assert old(Holds(Leaves, l)) && Spines[spineID].Children[q] == l;
        assert LeafRecOf(l) == was[Skip(r, q)].(index := l.Index);
        RemovedAt(was, r, q);
      }
    }

    twostate lemma OtherSpineAfterRemoveLeaf(new p: u16, new leafID: u16, new spineID: u16, new r: nat)
      requires old(Valid()) && IndexesShifted(spineID, r)
      requires leafID in old(Leaves) && Leaves == old(Leaves) - {leafID}
      requires r < |old(Spines[spineID].Children)| && old(Spines[spineID].Children)[r] == old(Leaves[leafID])
      requires Spines[spineID].Children == old(Spines[spineID].Children)[..r] + old(Spines[spineID].Children)[r+1..]
      requires p in Spines && p != spineID && Spines[p].Children == old(Spines[p].Children)
      ensures LeavesOf(p) == old(LeavesOf(p))
    {
      var kids := Spines[p].Children;
      assert old(ChildrenHeld(Spines[p], Leaves) && ParentOk(Spines[p]));
      assert old(Leaves[leafID].Parent) == Spines[spineID] by { assert old(ParentOk(Spines[spineID])); }
      forall q | 0 <= q < |kids| ensures LeavesOf(p)[q] == old(LeavesOf(p))[q] {
        assert old(Holds(Leaves, kids[q]));
        assert kids[q] !in old(Spines[spineID].Children) by { assert old(ParentOk(Spines[spineID])); }
      }
    }

    twostate lemma SpinesAfterRemoveLeaf(new leafID: u16, new spineID: u16, new r: nat)
      requires old(Valid()) && IndexesShifted(spineID, r)
      requires leafID in old(Leaves) && Leaves == old(Leaves) - {leafID}
      requires r < |old(Spines[spineID].Children)| && old(Spines[spineID].Children)[r] == old(Leaves[leafID])
      requires Spines[spineID].Children == old(Spines[spineID].Children)[..r] + old(Spines[spineID].Children)[r+1..]
      requires forall p | p in Spines && p != spineID :: Spines[p].Children == old(Spines[p].Children)
      ensures forall p | p in Spines ::
                LeavesOf(p) == RemoveLeafAtPosition(old(LeavesOf(p)), if p == spineID then r else |old(LeavesOf(p))|)
    {
      SiblingsAfterRemoveLeaf(leafID, spineID, r);
      forall p | p in Spines && p != spineID ensures LeavesOf(p) == old(LeavesOf(p)) {
        OtherSpineAfterRemoveLeaf(p, leafID, spineID, r);
      }
    }

    lemma LeafPosition(p: u16, leafID: u16, r: nat)
      requires Valid() && p in Spines && r <= |Spines[p].Children|
      requires forall i | 0 <= i < |Spines[p].Children| :: Spines[p].Children[i].ID == leafID <==> i == r
      ensures PositionOf(LeavesOf(p), leafID) == r
    {
      var k := PositionOf(LeavesOf(p), leafID);
      assert forall i | 0 <= i < |LeavesOf(p)| :: LeavesOf(p)[i].id == Spines[p].Children[i].ID;
      assert k < |LeavesOf(p)| ==> Spines[p].Children[k].ID == leafID;
      assert r < |LeavesOf(p)| ==> LeavesOf(p)[r].id == leafID;
    }

    lemma LeafIsElsewhere(p: u16, leafID: u16)
      requires Valid() && p in Spines
      requires leafID in Leaves ==> Leaves[leafID].Parent != Spines[p]
      ensures PositionOf(LeavesOf(p), leafID) == |LeavesOf(p)|
    {
      assert ChildrenHeld(Spines[p], Leaves) && ParentOk(Spines[p]);
      LeafPosition(p, leafID, |LeavesOf(p)|);
    }

    twostate lemma OnlyOneRecordChanged(new p: u16, new leafID: u16)
      requires old(Valid()) && OtherLeavesKept(leafID) && p in old(Spines)
      requires Spines == old(Spines) && Spines[p].Children == old(Spines[p].Children)
      ensures AgreeExceptAt(LeavesOf(p), old(LeavesOf(p)), PositionOf(old(LeavesOf(p)), leafID))
    {
      var kids := Spines[p].Children;
      var k := PositionOf(old(LeavesOf(p)), leafID);
      forall i | 0 <= i < |kids| && i != k ensures LeavesOf(p)[i] == old(LeavesOf(p))[i] {
        assert old(Holds(Leaves, kids[i]));
        assert k < |kids| ==> old(Holds(Leaves, kids[k]) && ParentOk(Spines[p]));
        assert kids[i].ID == old(LeavesOf(p))[i].id;
      }
    }

    twostate lemma OnlyOneRecordChanges(new leafID: u16)
      requires old(Valid()) && OtherLeavesKept(leafID)
      requires Spines == old(Spines) && forall p | p in Spines :: Spines[p].Children == old(Spines[p].Children)
      ensures forall p | p in Spines ::
                AgreeExceptAt(LeavesOf(p), old(LeavesOf(p)), PositionOf(old(LeavesOf(p)), leafID))
    {
      forall p | p in Spines { OnlyOneRecordChanged(p, leafID); }
    }

    lemma NoServerLeft(leafID: u16)
      requires Valid() && leafID in Leaves && Leaves[leafID].Children == []
      ensures forall k | k in Servers :: Servers[k].Parent != Leaves[leafID]
    {
      forall k | k in Servers ensures Servers[k].Parent != Leaves[leafID] {
        assert ChildOk(Servers[k], Leaves);
      }
    }

    /** All servers of the leaf go first; nothing else changes. */
    method EmptyLeaf(leafID: u16)
      requires Valid() && leafID in Leaves
      modifies this`Servers, Leaves.Values`Children, Leaves.Values`FirstWorkerID, Leaves.Values`LastWorkerID
      modifies Servers.Values`FirstWorkerID, Servers.Values`LastWorkerID
      ensures Valid() && Leaves[leafID].Children == []
      ensures forall k | k in Servers :: k in old(Servers) && Servers[k] == old(Servers[k])
      ensures forall k | k in old(Servers) :: k !in Servers <==> old(Servers[k].Parent) == Leaves[leafID]
      ensures forall p | p in Spines ::
                AgreeExceptAt(LeavesOf(p), old(LeavesOf(p)), PositionOf(old(LeavesOf(p)), leafID))
    {
      hide LeafRecs, LeafRecOf, ServerRecs, ParentOk, ChildOk, ChildrenHeld, AgreeExceptAt;
      RemoveAllServers(Leaves[leafID]);
      NoServerLeft(leafID);
      OnlyOneRecordChanges(leafID);
    }

    /** Exactly the collected siblings got a new index. */
    twostate lemma CollectedAreShifted(new leafID: u16, new spineID: u16, new r: nat)
      requires old(Valid()) && IndexesShifted(spineID, r)
      requires leafID in old(Leaves) && Leaves == old(Leaves) - {leafID}
      requires r < |old(Spines[spineID].Children)| && old(Spines[spineID].Children)[r] == old(Leaves[leafID])
      ensures forall k | k in Leaves ::
                Leaves[k] in old(Spines[spineID].Children)[r+1..] <==> Leaves[k].Index != old(Leaves[k].Index)
    {
      var kids := old(Spines[spineID].Children);
      assert old(ChildrenHeld(Spines[spineID], Leaves) && ParentOk(Spines[spineID]));
      forall k | k in Leaves ensures Leaves[k] in kids[r+1..] <==> Leaves[k].Index != old(Leaves[k].Index) {
        if Leaves[k] in kids {
          var i :| 0 <= i < |kids| && kids[i] == Leaves[k];
          if r < i {
            assert kids[r+1..][i-r-1] == Leaves[k];
          }
        }
      }
    }

    method RemoveEmptyLeaf(leafID: u16, ghost spineID: u16, ghost r: nat) returns (removedIdx: int, updated: seq<Node>)
      requires Valid() && leafID in Leaves && Leaves[leafID].Children == []
      requires spineID in Spines && Leaves[leafID].Parent == Spines[spineID]
      requires r < |Spines[spineID].Children| && Spines[spineID].Children[r] == Leaves[leafID]
      modifies this`Leaves, Spines.Values`Children, Leaves.Values`Index
      ensures Valid() && Leaves == old(Leaves) - {leafID}
      ensures removedIdx == r && updated == old(Spines[spineID].Children)[r+1..]
      ensures forall k | k in Leaves ::
                Leaves[k] in old(Spines[spineID].Children)[r+1..] <==> Leaves[k].Index != old(Leaves[k].Index)
      ensures forall p | p in Spines ::
                LeavesOf(p) == RemoveLeafAtPosition(old(LeavesOf(p)), if p == spineID then r else |old(LeavesOf(p))|)
    {
      hide LeafRecs, ServerRecs, RemoveLeafAtPosition, ChildOk, ParentOk, LeafRecOf;
      ghost var spine, at := PlaceOfLeaf(leafID);
      assert forall c | c in spine.Children :: c in Leaves.Values by { assert ChildrenHeld(spine, Leaves); }
      removedIdx, updated := DetachLeaf(Leaves[leafID], Leaves[leafID].Parent, r);
      CollectedAreShifted(leafID, spineID, r);
      SpinesAfterRemoveLeaf(leafID, spineID, r);
    }

    method RemoveKnownLeaf(leafID: u16, ghost spineID: u16, ghost r: nat) returns (removedIdx: int, updated: seq<Node>)
      requires Valid() && leafID in Leaves
      requires spineID in Spines && Leaves[leafID].Parent == Spines[spineID]
      requires r < |Spines[spineID].Children| && Spines[spineID].Children[r] == Leaves[leafID]
      requires forall p | p in Spines ::
                 PositionOf(LeavesOf(p), leafID) == if p == spineID then r else |LeavesOf(p)|
      modifies this`Leaves, this`Servers, Spines.Values`Children
      modifies Leaves.Values`Children, Leaves.Values`FirstWorkerID, Leaves.Values`LastWorkerID, Leaves.Values`Index
      modifies Servers.Values`FirstWorkerID, Servers.Values`LastWorkerID
      ensures Valid() && Leaves == old(Leaves) - {leafID}
      ensures forall k | k in Servers :: k in old(Servers) && Servers[k] == old(Servers[k])
      ensures forall k | k in old(Servers) :: k !in Servers <==> old(Servers[k].Parent) == old(Leaves[leafID])
      ensures removedIdx == r && updated == old(Spines[spineID].Children)[r+1..]
      ensures forall k | k in Leaves :: Leaves[k] in updated <==> Leaves[k].Index != old(Leaves[k].Index)
      ensures forall p | p in Spines :: LeavesOf(p) == TopologySpec.RemoveLeaf(old(LeavesOf(p)), leafID)
    {
      hide LeafRecs, ServerRecs, RemoveLeafAtPosition, ParentOk, ChildOk, Linked, LeafRecOf;
      EmptyLeaf(leafID);
      label Emptied:
      removedIdx, updated := RemoveEmptyLeaf(leafID, spineID, r);
      forall p | p in Spines ensures LeavesOf(p) == TopologySpec.RemoveLeaf(old(LeavesOf(p)), leafID) {
        ghost var k := PositionOf(old(LeavesOf(p)), leafID);
        SpliceIgnoresRemoved(old@Emptied(LeavesOf(p)), old(LeavesOf(p)), k);
        assert k == if p == spineID then r else |old@Emptied(LeavesOf(p))|;
        assert LeavesOf(p) == RemoveLeafAtPosition(old@Emptied(LeavesOf(p)), k);
      }
    }

    lemma PlaceBelowSpines(leafID: u16) returns (spineID: u16, r: nat)
      requires Valid() && leafID in Leaves
      ensures spineID in Spines && Leaves[leafID].Parent == Spines[spineID]
      ensures r < |Spines[spineID].Children| && Spines[spineID].Children[r] == Leaves[leafID]
      ensures forall p | p in Spines ::
                PositionOf(LeavesOf(p), leafID) == if p == spineID then r else |LeavesOf(p)|
    {
      var spine;
      spine, r := PlaceOfLeaf(leafID);
      spineID := spine.ID;
      forall p | p in Spines ensures PositionOf(LeavesOf(p), leafID) == if p == spineID then r else |LeavesOf(p)| {
        if p == spineID { LeafPosition(p, leafID, r); } else { LeafIsElsewhere(p, leafID); }
      }
    }

    /** The leaf `leafID` and its servers are gone; its later siblings below spine `spineID` moved
        down by one. */
    method RemoveLeaf(leafID: u16) returns (removedIdx: int, updated: seq<Node>, ghost spineID: u16)
      requires Valid()
      modifies this`Leaves, this`Servers, Spines.Values`Children
      modifies Leaves.Values`Children, Leaves.Values`FirstWorkerID, Leaves.Values`LastWorkerID, Leaves.Values`Index
      modifies Servers.Values`FirstWorkerID, Servers.Values`LastWorkerID
      ensures Valid() && Leaves == old(Leaves) - {leafID}
      ensures forall k | k in Servers :: k in old(Servers) && Servers[k] == old(Servers[k])
      ensures forall k | k in old(Servers) ::
                k !in Servers <==> leafID in old(Leaves) && old(Servers[k].Parent) == old(Leaves[leafID])
      ensures leafID !in old(Leaves) ==> removedIdx == -1 && updated == []
      ensures leafID in old(Leaves) ==>
                && spineID in Spines && old(Leaves[leafID].Parent) == Spines[spineID]
                && 0 <= removedIdx < |old(Spines[spineID].Children)|
                && old(Spines[spineID].Children)[removedIdx] == old(Leaves[leafID])
                && updated == old(Spines[spineID].Children)[removedIdx+1..]
      ensures forall k | k in Leaves :: Leaves[k] in updated <==> Leaves[k].Index != old(Leaves[k].Index)
      ensures forall p | p in Spines :: LeavesOf(p) == TopologySpec.RemoveLeaf(old(LeavesOf(p)), leafID)
    {
      hide LeafRecs, ServerRecs, ParentOk, ChildOk;
      if leafID !in Leaves {
        forall p | p in Spines { LeafIsElsewhere(p, leafID); }
        return -1, [], 0;
      }
      ghost var r;
      spineID, r := PlaceBelowSpines(leafID);
      removedIdx, updated := RemoveKnownLeaf(leafID, spineID, r);
    }
  }
}
