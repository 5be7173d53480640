/** Which leaves and servers are below a spine, and how each operation of the topology changes that. */
module SpineShape {
  import opened Words
  import opened TopologySpec
  import opened WorkerRanges
  import opened SpineContents

  function Ids(l: LeafRec): set<u16> {
    set i | 0 <= i < |l.servers| :: l.servers[i].id
  }

  /** All servers below the spine. */
  ghost function ServersBelow(ls: seq<LeafRec>): (ids: set<u16>)
    ensures forall s :: s in ids <==> AnyHasServer(ls, s)
  {
    var ids := set i, k | 0 <= i < |ls| && 0 <= k < |ls[i].servers| :: ls[i].servers[k].id;
    assert forall i, k | 0 <= i < |ls| && 0 <= k < |ls[i].servers| :: HasServer(ls[i], ls[i].servers[k].id);
    ids
  }

  /** Leaves at their indexes, and no server below two of them. */
  ghost predicate Shape(ls: seq<LeafRec>) {
    && Indexed(ls)
    && forall i, j | 0 <= i < j < |ls| :: Ids(ls[i]) !! Ids(ls[j])
  }

  // ---------- the topology operations keep the shape ----------

  lemma AddLeafShape(ls: seq<LeafRec>, leaf: LeafInfo)
    requires Shape(ls) && !HasLeaf(ls, leaf.id) && !AddressTaken(ls, leaf)
    ensures Shape(AddLeaf(ls, leaf))
    ensures |AddLeaf(ls, leaf)| == |ls| + 1 && forall i | 0 <= i < |ls| :: AddLeaf(ls, leaf)[i] == ls[i]
    ensures AddLeaf(ls, leaf)[|ls|].id == leaf.id && Ids(AddLeaf(ls, leaf)[|ls|]) == {}
  {
    RoomForOneMore(ls, leaf.id);
  }

  lemma IdsAfterAppend(l: LeafRec, info: ServerInfo)
    ensures Ids(AppendServer(l, info)) == Ids(l) + {info.id}
  {
    var m := AppendServer(l, info);
    forall id ensures id in Ids(m) <==> id in Ids(l) + {info.id} {
      if id in Ids(l) {
        var i :| 0 <= i < |l.servers| && l.servers[i].id == id;
        assert m.servers[i].id == id;
      }
      if id == info.id {
        assert m.servers[|l.servers|].id == id;
      }
    }
  }

  lemma IdsOfContents(l: LeafRec, id: u16)
    ensures id in Ids(l) <==> exists c :: c in Contents(l.servers) && c.id == id
  {
    var cs := Contents(l.servers);
    if id in Ids(l) {
      var i :| 0 <= i < |l.servers| && l.servers[i].id == id;
      assert cs[i] in cs;
    }
    if c :| c in cs && c.id == id {
      var i :| 0 <= i < |cs| && cs[i] == c;
      assert l.servers[i].id == id;
    }
  }

  lemma IdsAfterDrop(l: LeafRec, gone: set<u16>)
    ensures Ids(DropServers(l, gone)) == Ids(l) - gone
  {
    hide Lay, Keep, Contents, Sum16;
    KeepMembers(Contents(l.servers), gone);
    ContentsOfLay(Keep(Contents(l.servers), gone));
    forall id ensures id in Ids(DropServers(l, gone)) <==> id in Ids(l) - gone {
      IdsOfContents(l, id);
      IdsOfContents(DropServers(l, gone), id);
    }
  }

  lemma HasServerIds(l: LeafRec, id: u16)
    ensures HasServer(l, id) <==> id in Ids(l)
  {
  }

  lemma AddServerShape(ls: seq<LeafRec>, info: ServerInfo, parent: u16)
    requires Shape(ls) && HasLeaf(ls, parent) && !AnyHasServer(ls, info.id)
    ensures var now := AddServer(ls, info, parent);
            && Shape(now) && |now| == |ls|
            && forall i | 0 <= i < |ls| ::
                 && now[i].id == ls[i].id && now[i].dsPort == ls[i].dsPort
                 && Ids(now[i]) == Ids(ls[i]) + if ls[i].id == parent then {info.id} else {}
  {
    forall i | 0 <= i < |ls| ensures info.id !in Ids(ls[i]) {
      HasServerIds(ls[i], info.id);
      IdsAfterAppend(ls[i], info);
    }
    forall i | 0 <= i < |ls| { IdsAfterAppend(ls[i], info); }
  }

  lemma RemoveServerShape(ls: seq<LeafRec>, id: u16)
    requires Shape(ls)
    ensures var now := RemoveServer(ls, id);
            && Shape(now) && |now| == |ls|
            && forall i | 0 <= i < |ls| ::
                 now[i].id == ls[i].id && now[i].dsPort == ls[i].dsPort && Ids(now[i]) == Ids(ls[i]) - {id}
  {
    forall i | 0 <= i < |ls| ensures Ids(RemoveServer(ls, id)[i]) == Ids(ls[i]) - {id} {
      HasServerIds(ls[i], id);
      IdsAfterDrop(ls[i], {id});
    }
  }

  lemma RemoveLeafShape(ls: seq<LeafRec>, id: u16)
    requires Shape(ls) && HasLeaf(ls, id)
    ensures var now := RemoveLeaf(ls, id);
            && Shape(now) && |now| == |ls| - 1
            && forall i | 0 <= i < |now| ::
                 && Skip(PositionOf(ls, id), i) < |ls|
                 && now[i] == ls[Skip(PositionOf(ls, id), i)].(index := i)
  {
    var now := RemoveLeaf(ls, id);
    forall i | 0 <= i < |now|
      ensures Skip(PositionOf(ls, id), i) < |ls| && now[i] == ls[Skip(PositionOf(ls, id), i)].(index := i)
    {
      RemoveLeafAt(ls, id, i);
    }
  }

  // ---------- which nodes an operation brings and takes ----------

  lemma LeafAddedNodes(was: seq<LeafRec>, leaf: LeafInfo)
    requires Shape(was) && !HasLeaf(was, leaf.id) && !AddressTaken(was, leaf)
    ensures var ls := AddLeaf(was, leaf);
            && Shape(ls)
            && (forall id :: HasLeaf(ls, id) <==> HasLeaf(was, id) || id == leaf.id)
            && forall id :: AnyHasServer(ls, id) <==> AnyHasServer(was, id)
  {
    var ls, n := AddLeaf(was, leaf), |was|;
    AddLeafShape(was, leaf);
    forall id ensures HasLeaf(ls, id) <==> HasLeaf(was, id) || id == leaf.id {
      assert ls == was + [ls[n]];
    }
    forall id ensures AnyHasServer(ls, id) <==> AnyHasServer(was, id) {
      HasServerIds(ls[n], id);
      assert ls == was + [ls[n]];
    }
  }

  lemma ServerAddedNodes(was: seq<LeafRec>, server: ServerInfo, parent: u16)
    requires Shape(was) && HasLeaf(was, parent) && !AnyHasServer(was, server.id)
    ensures var ls := AddServer(was, server, parent);
            && Shape(ls)
            && (forall id :: HasLeaf(ls, id) <==> HasLeaf(was, id))
            && forall id :: AnyHasServer(ls, id) <==> AnyHasServer(was, id) || id == server.id
  {
    var ls := AddServer(was, server, parent);
    AddServerShape(was, server, parent);
    SamePlaces(was, ls);
    forall id ensures AnyHasServer(ls, id) <==> AnyHasServer(was, id) || id == server.id {
      AnyHasServerIds(was, id);
      AnyHasServerIds(ls, id);
    }
  }

  lemma LeafFailedNodes(was: seq<LeafRec>, leafID: u16)
    requires Shape(was) && HasLeaf(was, leafID)
    ensures var ls := RemoveLeaf(was, leafID);
            && Shape(ls)
            && (forall id :: HasLeaf(ls, id) <==> HasLeaf(was, id) && id != leafID)
            && forall id :: AnyHasServer(ls, id) <==>
                 AnyHasServer(was, id) && id !in Ids(was[PositionOf(was, leafID)])
  {
    hide RemoveLeaf, DropServers, HasServer;
    var ls, k := RemoveLeaf(was, leafID), PositionOf(was, leafID);
    RemoveLeafShape(was, leafID);
    forall j | 0 <= j < |was| && j != k ensures was[j].id != leafID && Ids(was[j]) !! Ids(was[k]) {
    }
    forall j | 0 <= j < |was| && j != k
      ensures var i := if j < k then j else j - 1; ls[i] == was[j].(index := i)
    {
      assert Skip(k, if j < k then j else j - 1) == j;
    }
    forall id ensures HasLeaf(ls, id) <==> HasLeaf(was, id) && id != leafID {
      if j :| 0 <= j < |was| && was[j].id == id && id != leafID {
        assert ls[if j < k then j else j - 1].id == id;
      }
    }
    forall id ensures AnyHasServer(ls, id) <==> AnyHasServer(was, id) && id !in Ids(was[k]) {
      AnyHasServerIds(was, id);
      AnyHasServerIds(ls, id);
      if j :| 0 <= j < |was| && id in Ids(was[j]) && j != k {
        assert id in Ids(ls[if j < k then j else j - 1]);
      }
    }
  }

  lemma ServerFailedNodes(was: seq<LeafRec>, serverID: u16)
    requires Shape(was)
    ensures var ls := RemoveServer(was, serverID);
            && Shape(ls)
            && (forall id :: HasLeaf(ls, id) <==> HasLeaf(was, id))
            && forall id :: AnyHasServer(ls, id) <==> AnyHasServer(was, id) && id != serverID
  {
    var ls := RemoveServer(was, serverID);
    RemoveServerShape(was, serverID);
    SamePlaces(was, ls);
    forall id ensures AnyHasServer(ls, id) <==> AnyHasServer(was, id) && id != serverID {
      AnyHasServerIds(was, id);
      AnyHasServerIds(ls, id);
    }
  }

  lemma SamePlaces(was: seq<LeafRec>, ls: seq<LeafRec>)
    requires |was| == |ls| && forall i | 0 <= i < |ls| :: ls[i].id == was[i].id
    ensures forall id :: HasLeaf(ls, id) <==> HasLeaf(was, id)
  {
    forall id ensures HasLeaf(ls, id) <==> HasLeaf(was, id) {
      if i :| 0 <= i < |was| && was[i].id == id {
        assert ls[i].id == id;
      }
    }
  }

  lemma AnyHasServerIds(ls: seq<LeafRec>, id: u16)
    ensures AnyHasServer(ls, id) <==> exists i | 0 <= i < |ls| :: id in Ids(ls[i])
  {
    forall i | 0 <= i < |ls| ensures HasServer(ls[i], id) <==> id in Ids(ls[i]) {
      HasServerIds(ls[i], id);
    }
  }
}
