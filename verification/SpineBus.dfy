/** The spine's control plane as objects: the table writers of BfrtSpineCP_V1 (ctrl_mgr/cp.go) and the
    message handlers of SpineBus (ctrl_mgr/spineBus.go), proved to act as the transition system of
    SpineTables says. */
module SpineBus {
  import opened Words
  import opened TopologySpec
  import opened TopologyTree
  import opened SpineTables

  class SpineCP {
    const spine: Node
    const topology: Topology
    var getRandLeafID1: map<nat, u16>
    var getRandLeafID2: map<nat, u16>
    var getSwitchIndex: map<u16, nat>
    var numValidLeafs: nat
    var forward: map<u16, nat>

    constructor (s: Node, t: Topology)
      ensures spine == s && topology == t && Twins() && AsTables() == NO_TABLES
    {
      spine, topology := s, t;
      getRandLeafID1, getRandLeafID2, getSwitchIndex, numValidLeafs, forward := map[], map[], map[], 0, map[];
    }

    /** Both sampling tables are written alike. */
    ghost predicate Twins()
      reads this
    {
      getRandLeafID1 == getRandLeafID2
    }

    ghost function AsTables(): Tables
      reads this
    {
      Tables(getRandLeafID1, getSwitchIndex, numValidLeafs, forward)
    }

    /** The topology of a spine controller: this spine is the only one. */
    ghost predicate OnlySpine()
      reads topology, topology.Spines.Values, topology.Leaves.Values, topology.Servers.Values
    {
      && topology.Valid() && Holds(topology.Spines, spine)
      && forall k | k in topology.Leaves :: topology.Leaves[k].Parent == spine
    }

    ghost function Leaves(): seq<LeafRec>
      reads spine, spine.Children, Grandchildren(spine.Children)
    {
      LeafRecs(spine.Children)
    }

    /** The records agree with the children in all that the tables use. */
    ghost predicate Describes(ls: seq<LeafRec>, kids: seq<Node>)
      reads kids
    {
      |ls| == |kids| &&
      forall i | 0 <= i < |ls| ::
        ls[i].id == kids[i].ID && ls[i].index == kids[i].Index && ls[i].dsPort == kids[i].DsPort
    }

    /** The loops of Init over the children. */
    method InitChildren(kids: seq<Node>, ghost ls: seq<LeafRec>)
      requires Twins() && Describes(ls, kids)
      modifies this
      ensures Twins() && AsTables() == InitRows(old(AsTables()), ls)
    {
      ghost var t := AsTables();
      for i := 0 to |kids|
        invariant Twins() && AsTables() == InitRows(t, ls[..i])
      {
        var leaf := kids[i];
        assert ls[..i+1][..i] == ls[..i];
        forward := forward[leaf.ID := leaf.DsPort.devPort];
        getRandLeafID1 := getRandLeafID1[i := leaf.ID];
        getRandLeafID2 := getRandLeafID2[i := leaf.ID];
        getSwitchIndex := getSwitchIndex[leaf.ID := i];
      }
      assert ls[..|ls|] == ls;
    }

    method Init()
      requires Twins() && AsTables() == NO_TABLES
      modifies this
      ensures Twins() && AsTables() == SpineTables.Init(Leaves())
    {
      ghost var ls := Leaves();
      InitChildren(spine.Children, ls);
      numValidLeafs := |spine.Children|;
      assert Leaves() == ls;
    }

    lemma ChildOfSpine(leafID: u16)
      requires OnlySpine()
      ensures leafID in topology.Leaves <==> HasLeaf(Leaves(), leafID)
      ensures leafID in topology.Leaves ==> LeafRecOf(topology.Leaves[leafID]) == Leaves()[PositionOf(Leaves(), leafID)]
    {
      assert ChildrenHeld(spine, topology.Leaves) && ParentOk(spine);
      if leafID in topology.Leaves {
        assert ChildOk(topology.Leaves[leafID], topology.Spines);
        var i :| 0 <= i < |spine.Children| && spine.Children[i] == topology.Leaves[leafID];
        assert Leaves()[i].id == leafID;
        var k := PositionOf(Leaves(), leafID);
        assert spine.Children[k].ID == leafID;
      }
      if i :| 0 <= i < |Leaves()| && Leaves()[i].id == leafID {
        assert spine.Children[i].ID == leafID;
      }
    }

    /** The loop of OnLeafChange over the children. */
    method WriteChildren(kids: seq<Node>, ghost ls: seq<LeafRec>)
      requires Twins() && Describes(ls, kids)
      modifies this
      ensures Twins() && AsTables() == WriteRows(old(AsTables()), ls)
    {
      ghost var t := AsTables();
      for i := 0 to |kids|
        invariant Twins() && AsTables() == WriteRows(t, ls[..i])
      {
        var leaf := kids[i];
        assert ls[..i+1][..i] == ls[..i];
        getSwitchIndex := getSwitchIndex[leaf.ID := leaf.Index];
        getRandLeafID1 := getRandLeafID1[leaf.Index := leaf.ID];
        getRandLeafID2 := getRandLeafID2[leaf.Index := leaf.ID];
      }
      assert ls[..|ls|] == ls;
    }

    method OnLeafChange(leafID: u16, added: bool)
      requires OnlySpine() && Twins() && (added ==> HasLeaf(Leaves(), leafID))
      modifies this
      ensures Twins() && Leaves() == old(Leaves())
      ensures AsTables() == SpineTables.OnLeafChange(old(AsTables()), Leaves(), leafID, added)
    {
      hide ServerRecs, LeafRecs, Linked, Keyed, ParentOk, ChildOk;
      ghost var ls := Leaves();
      ChildOfSpine(leafID);
      if added {
        var leaf := topology.Leaves[leafID];
        forward := forward[leafID := leaf.DsPort.devPort];
      }
      WriteChildren(spine.Children, ls);
      numValidLeafs := |spine.Children|;
      assert Leaves() == ls;
    }
  }

  class SpineBus {
    const cp: SpineCP
    var pendingLeaves: set<u16>

    constructor (c: SpineCP)
      ensures cp == c && pendingLeaves == {}
    {
      cp, pendingLeaves := c, {};
    }

    /** The state of the transition system that this bus and its topology are in. */
    ghost predicate IsIn(s: State)
      reads this, cp, cp.spine, cp.spine.Children, Grandchildren(cp.spine.Children)
    {
      cp.Twins() && s.ls == cp.Leaves() && s.t == cp.AsTables() && s.pending == pendingLeaves
    }

    /** `crashed` stands for the nil dereference when the leaf is gone. */
    method OnNewLeaf(leafID: u16, ghost s: State) returns (crashed: bool)
      requires cp.OnlySpine() && IsIn(s)
      modifies this, cp
      ensures crashed <==> HandleNewLeaf(s, leafID).Crash?
      ensures !crashed ==> IsIn(HandleNewLeaf(s, leafID).s)
      ensures crashed <==> leafID !in cp.topology.Leaves
      ensures !crashed ==>
                pendingLeaves == old(pendingLeaves) + if cp.topology.Leaves[leafID].Children == [] then {leafID} else {}
      ensures !crashed && cp.topology.Leaves[leafID].Children == [] ==> cp.AsTables() == old(cp.AsTables())
    {
      hide LeafRecs, Linked, Topology.Valid;
      cp.ChildOfSpine(leafID);
      if leafID !in cp.topology.Leaves {
        return true;
      }
      var leaf := cp.topology.Leaves[leafID];
      if |leaf.Children| > 0 {
        cp.OnLeafChange(leafID, true);
      } else {
        pendingLeaves := pendingLeaves + {leafID};
      }
      return false;
    }

    method OnNewServer(serverID: u16, ghost s: State) returns (crashed: bool)
      requires cp.OnlySpine() && IsIn(s)
      modifies this, cp
      ensures crashed <==> HandleNewServer(s, serverID).Crash?
      ensures !crashed ==> IsIn(HandleNewServer(s, serverID).s)
      ensures crashed <==> serverID !in cp.topology.Servers
      ensures !crashed ==> pendingLeaves == old(pendingLeaves) - {cp.topology.Servers[serverID].Parent.ID}
      ensures !crashed && cp.topology.Servers[serverID].Parent.ID !in old(pendingLeaves) ==>
                cp.AsTables() == old(cp.AsTables())
    {
      hide ServerRecs, LeafRecs, LeafRecOf, Linked, Keyed, SpineTables.OnLeafChange;
      OwnerIsParent(serverID);
      if serverID !in cp.topology.Servers {
        return true;
      }
      var leaf := cp.topology.Servers[serverID].Parent;
      if leaf.ID in pendingLeaves {
        cp.OnLeafChange(leaf.ID, true);
        pendingLeaves := pendingLeaves - {leaf.ID};
      }
      return false;
    }

    method OnFailedLeaf(leafID: u16, ghost s: State)
      requires cp.OnlySpine() && IsIn(s)
      modifies cp
      ensures IsIn(s.(t := SpineTables.OnLeafChange(s.t, s.ls, leafID, false)))
    {
      cp.OnLeafChange(leafID, false);
    }

    lemma OwnerIsParent(serverID: u16)
      requires cp.OnlySpine()
      ensures var k := OwnerOf(cp.Leaves(), serverID);
              && (serverID in cp.topology.Servers <==> k < |cp.Leaves()|)
              && (k < |cp.Leaves()| ==>
                    && cp.topology.Servers[serverID].Parent != null
                    && cp.topology.Servers[serverID].Parent.ID == cp.Leaves()[k].id)
    {
      var k := OwnerOf(cp.Leaves(), serverID);
      var spine, t := cp.spine, cp.topology;
      assert ChildrenHeld(spine, t.Leaves);
      if k < |cp.Leaves()| {
        assert Holds(t.Leaves, spine.Children[k]);
        t.ServersOfLeaf(spine.Children[k], serverID);
      }
      if serverID in t.Servers {
        assert ChildOk(t.Servers[serverID], t.Leaves);
        var leaf := t.Servers[serverID].Parent;
        t.ServersOfLeaf(leaf, serverID);
        assert ChildOk(leaf, t.Spines);
        var i :| 0 <= i < |spine.Children| && spine.Children[i] == leaf;
        assert HasServer(cp.Leaves()[i], serverID);
      }
    }
  }
}
