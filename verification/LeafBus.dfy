/** The leaf's control plane as an object: the table writers LeafCPInitAllVer and OnServerChangeAllVer
    (ctrl_mgr/cp.go), proved to write what LeafTables says. */
module LeafBus {
  import opened Words
  import opened TopologySpec
  import opened TopologyTree
  import opened WorkerRanges
  import opened LeafTables

  /** The destination address of upstream rows: the number 100. */
  const UPSTREAM_MAC := "00:00:00:00:00:64"

  /** The rows that lead to spines and clients. They are keyed by the leaf's index, not its ID. */
  function Upstream(l: LeafRec, ids: seq<u16>): Forward {
    if ids == [] then map[]
    else Upstream(l, ids[..|ids|-1])[(ids[|ids|-1], l.index) := Row(l.usPort.devPort, UPSTREAM_MAC)]
  }

  lemma {:induction false} UpstreamKeys(l: LeafRec, ids: seq<u16>, id: u16, pool: u16)
    ensures (id, pool) in Upstream(l, ids) <==> pool == l.index && id in ids
    ensures (id, pool) in Upstream(l, ids) ==> Upstream(l, ids)[(id, pool)] == Row(l.usPort.devPort, UPSTREAM_MAC)
  {
    if ids != [] {
      UpstreamKeys(l, ids[..|ids|-1], id, pool);
    }
  }

  /** No live worker has the row of an upstream switch, except a server at that very port and address. */
  ghost predicate NoneUpstream(l: LeafRec, ids: seq<u16>) {
    forall k: nat, wid: u16 | k < |l.servers| && Owns(l.servers[k], wid) ::
      Key(l.id, wid).0 in ids ==> RowOf(l.servers[k]) == Row(l.usPort.devPort, UPSTREAM_MAC)
  }

  /** The tables Init writes are right exactly if the leaf's index differs from its ID or no upstream
      ID is the destination ID of a live worker. */
  lemma InitRightIff(l: LeafRec, ids: seq<u16>)
    requires Wf(l)
    ensures Correct(LeafTables.Init(l, Upstream(l, ids)).fwd, l) <==> l.index != l.id || NoneUpstream(l, ids)
  {
    hide Wf, Correct, Owns, LeafTables.Init, Upstream;
    InitIsCorrectIff(l, Upstream(l, ids));
    forall wid: u16 {
      UpstreamKeys(l, ids, Key(l.id, wid).0, l.id);
    }
  }

  /** The failing input: leaf 6 has index 6, and an upstream switch 100 has the destination ID of its
      worker 4. */
  lemma UpstreamTakesWorkersRow(l: LeafRec, k: nat)
    requires Wf(l) && l.id == 6 && l.index == 6
    requires k < |l.servers| && Owns(l.servers[k], 4) && l.servers[k].address != UPSTREAM_MAC
    ensures !Correct(LeafTables.Init(l, Upstream(l, [100])).fwd, l)
  {
    InitRightIff(l, [100]);
    assert Key(6, 4) == (100, 6);
  }

  class LeafCP {
    const leaf: Node
    var forward: Forward
    var numDsElements: u16

    constructor (l: Node)
      ensures leaf == l && forward == map[]
    {
      leaf, forward := l, map[];
    }

    /** The loop over the workers of one server. A last worker ID of 65535 would never end it. */
    method WriteWorkers(leafID: u16, server: Node)
      requires server.LastWorkerID < WORD_SIZE - 1
      modifies `forward
      ensures forward == WriteRows(old(forward), leafID, ServerRecOf(server), RowCount(ServerRecOf(server)))
    {
      ghost var s := ServerRecOf(server);
      var wid := server.FirstWorkerID;
      while wid <= server.LastWorkerID
        invariant s == ServerRecOf(server) && s.first <= wid && (s.first <= s.last ==> wid <= s.last + 1)
        invariant s.first > s.last ==> wid == s.first
        invariant forward == WriteRows(old(forward), leafID, s, wid - s.first)
        decreases server.LastWorkerID + 1 - wid
      {
        var index := Trunc(leafID * MAX_VCLUSTER_WORKERS + wid);
        forward := forward[(index, leafID) := Row(server.Port.devPort, server.Address)];
        wid := Wrap(wid + 1);
      }
    }

    method WriteAll(leafID: u16, servers: seq<Node>)
      requires forall i | 0 <= i < |servers| :: servers[i].LastWorkerID < WORD_SIZE - 1
      modifies `forward
      ensures forward == WriteServers(old(forward), leafID, ServerRecs(servers))
    {
      ghost var ss := ServerRecs(servers);
      for i := 0 to |servers|
        invariant forward == WriteServers(old(forward), leafID, ss[..i])
      {
        assert ss[..i+1][..i] == ss[..i];
        WriteWorkers(leafID, servers[i]);
      }
      assert ss[..|ss|] == ss;
    }

    /** Sums the ranges of the children with 16-bit additions. */
    method CountWorkers() returns (count: u16)
      ensures count == Sum16(Contents(ServerRecs(leaf.Children))) == Trunc(Total(Contents(ServerRecs(leaf.Children))))
    {
      ghost var cs := Contents(ServerRecs(leaf.Children));
      count := 0;
      for i := 0 to |leaf.Children|
        invariant count == Sum16(cs[..i])
      {
        var server := leaf.Children[i];
        assert cs[..i+1][..i] == cs[..i];
        count := Wrap(count + Wrap(server.LastWorkerID - server.FirstWorkerID + 1));
      }
      assert cs[..|cs|] == cs;
      SumIsTotal(cs);
    }

    method WriteUpstream(ids: seq<u16>)
      modifies `forward
      ensures forward == old(forward) + Upstream(LeafRecOf(leaf), ids)
    {
      for i := 0 to |ids|
        invariant forward == old(forward) + Upstream(LeafRecOf(leaf), ids[..i])
      {
        assert ids[..i+1][..i] == ids[..i];
        forward := forward[(ids[i], leaf.Index) := Row(leaf.UsPort.devPort, UPSTREAM_MAC)];
      }
      assert ids[..|ids|] == ids;
    }

    ghost function AsState(): LeafState
      reads this, leaf, leaf.Children
    {
      LeafState(LeafRecOf(leaf), forward, numDsElements)
    }

    method Init(upstreamIDs: seq<u16>)
      requires forward == map[]
      requires forall i | 0 <= i < |leaf.Children| :: leaf.Children[i].LastWorkerID < WORD_SIZE - 1
      modifies this
      ensures AsState() == LeafTables.Init(LeafRecOf(leaf), Upstream(LeafRecOf(leaf), upstreamIDs))
      ensures numDsElements == Trunc(Total(Contents(ServerRecs(leaf.Children))))
    {
      hide WriteServers, Upstream, Sum16, ServerRecs;
      WriteAll(leaf.ID, leaf.Children);
      WriteUpstream(upstreamIDs);
      numDsElements := CountWorkers();
    }

    method OnServerChange(updated: seq<Node>)
      requires forall i | 0 <= i < |updated| :: updated[i].LastWorkerID < WORD_SIZE - 1
      modifies this
      ensures AsState() == LeafTables.OnServerChange(old(AsState()), ServerRecs(updated))
      ensures numDsElements == Trunc(Total(Contents(ServerRecs(leaf.Children))))
    {
      numDsElements := CountWorkers();
      WriteAll(leaf.ID, updated);
    }
  }
}
