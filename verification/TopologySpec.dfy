/** The topology below one spine as values, and the operations of core/model/topology.go on it.

    There are two views of a leaf's servers. `ServerInfo` is what a server is (its wire message:
    identity, port, number of workers); `ServerRec` is what a node stores (identity, port, first
    and last worker ID). `Lay` turns the first into the second by handing out consecutive worker
    IDs, `Contents` goes back. "The worker ranges tile" is then `servers == Lay(Contents(servers))`. */
module TopologySpec {
  import opened Words

  /** An opaque port, standing for the entry a port registry holds. */
  datatype Port = Port(spec: string, devPort: nat)

  datatype ServerInfo = ServerInfo(id: u16, address: string, port: Port, workers: u16)

  datatype ServerRec = ServerRec(id: u16, address: string, port: Port, first: u16, last: u16)

  datatype LeafInfo = LeafInfo(id: u16, address: string, mgmt: string, dsPort: Port, usPort: Port,
                               index: u16, servers: seq<ServerInfo>)

  datatype LeafRec = LeafRec(id: u16, address: string, mgmt: string, dsPort: Port, usPort: Port,
                             index: u16, first: u16, last: u16, servers: seq<ServerRec>)

  // ---------- worker ranges ----------

  /** The number of workers a stored range stands for, computed as the code does, modulo 2^16. */
  function Count(s: ServerRec): u16 {
    Wrap(s.last - s.first + 1)
  }

  function InfoOf(s: ServerRec): ServerInfo {
    ServerInfo(s.id, s.address, s.port, Count(s))
  }

  function Contents(ss: seq<ServerRec>): (cs: seq<ServerInfo>)
    ensures |cs| == |ss|
  {
    seq(|ss|, i requires 0 <= i < |ss| => InfoOf(ss[i]))
  }

  /** The exact (unbounded) number of workers of a list of servers. */
  function Total(cs: seq<ServerInfo>): nat {
    if cs == [] then 0 else Total(cs[..|cs|-1]) + cs[|cs|-1].workers
  }

  /** The same number as the uint16 counter of the source holds it. */
  function Sum16(cs: seq<ServerInfo>): u16 {
    if cs == [] then 0 else Wrap(Sum16(cs[..|cs|-1]) + cs[|cs|-1].workers)
  }

  /** A server whose worker IDs start at `first`. */
  function Place(c: ServerInfo, first: u16): ServerRec {
    ServerRec(c.id, c.address, c.port, first, Wrap(first + c.workers - 1))
  }

  /** Consecutive worker ranges, starting at 0, in list order. */
  function Lay(cs: seq<ServerInfo>): (ss: seq<ServerRec>)
    ensures |ss| == |cs|
  {
    seq(|cs|, i requires 0 <= i < |cs| => Place(cs[i], Sum16(cs[..i])))
  }

  ghost predicate Tiled(ss: seq<ServerRec>) {
    ss == Lay(Contents(ss))
  }

  /** The end-of-range a leaf stores. A leaf without workers may carry 0 or 65535. */
  ghost predicate LastEncodes(last: u16, total: u16) {
    last == Wrap(total - 1) || (total == 0 && last == 0)
  }

  ghost predicate LeafTiled(l: LeafRec) {
    && Tiled(l.servers)
    && l.first == 0
    && LastEncodes(l.last, Sum16(Contents(l.servers)))
  }

  // ---------- lists ----------

  ghost predicate DistinctInfos(cs: seq<ServerInfo>) {
    forall i, j | 0 <= i < j < |cs| :: cs[i].id != cs[j].id
  }

  ghost predicate DistinctLeaves(ls: seq<LeafRec>) {
    forall i, j | 0 <= i < j < |ls| :: ls[i].id != ls[j].id
  }

  /** The servers that survive when those in `gone` fail, in their original order. */
  function Keep(cs: seq<ServerInfo>, gone: set<u16>): (r: seq<ServerInfo>) {
    if cs == [] then []
    else Keep(cs[..|cs|-1], gone) + (if cs[|cs|-1].id in gone then [] else [cs[|cs|-1]])
  }

  predicate HasServer(l: LeafRec, serverID: u16) {
    exists i | 0 <= i < |l.servers| :: l.servers[i].id == serverID
  }

  predicate AnyHasServer(ls: seq<LeafRec>, serverID: u16) {
    exists i | 0 <= i < |ls| :: HasServer(ls[i], serverID)
  }

  predicate HasLeaf(ls: seq<LeafRec>, leafID: u16) {
    exists i | 0 <= i < |ls| :: ls[i].id == leafID
  }

  /** First position of a leaf; the length of the list if it is absent. */
  function PositionOf(ls: seq<LeafRec>, leafID: u16): (k: nat)
    ensures k <= |ls|
    ensures k < |ls| ==> ls[k].id == leafID
    ensures forall i | 0 <= i < k :: ls[i].id != leafID
  {
    if ls == [] then 0
    else
      var k := PositionOf(ls[..|ls|-1], leafID);
      if k < |ls| - 1 then k else if ls[|ls|-1].id == leafID then k else k + 1
  }

  ghost predicate IndexesArePositions(ls: seq<LeafRec>) {
    forall i | 0 <= i < |ls| :: ls[i].index == i
  }

  // ---------- operations on one leaf ----------

  /** A leaf whose servers are exactly `cs`, with worker IDs handed out afresh. */
  function Retile(l: LeafRec, cs: seq<ServerInfo>): LeafRec {
    l.(servers := Lay(cs), first := 0,
       last := if Sum16(cs) == 0 then 0 else Sum16(cs) - 1)
  }

  /** RemoveServer on the owning leaf: drop the servers in `gone` and retile the others. */
  function DropServers(l: LeafRec, gone: set<u16>): LeafRec {
    Retile(l, Keep(Contents(l.servers), gone))
  }

  /** The first worker ID AddServerToLeaf gives the next server: 0 also stands for "no workers yet". */
  function NextWorkerID(last: u16): u16 {
    if last > 0 then Wrap(last + 1) else 0
  }

  /** The record of a server added to a leaf whose stored end-of-range is `last`. */
  function Added(last: u16, info: ServerInfo): ServerRec {
    Place(info, NextWorkerID(last))
  }

  function AppendServer(l: LeafRec, info: ServerInfo): LeafRec {
    var added := Added(l.last, info);
    l.(first := 0, last := added.last, servers := l.servers + [added])
  }

  function FreshLeaf(info: LeafInfo, index: u16): LeafRec {
    LeafRec(info.id, info.address, info.mgmt, info.dsPort, info.usPort, index, 0, 0, [])
  }

  // ---------- operations on the children of one spine ----------

  function RemoveServer(ls: seq<LeafRec>, serverID: u16): (r: seq<LeafRec>)
    ensures |r| == |ls|
  {
    seq(|ls|, i requires 0 <= i < |ls| =>
      if HasServer(ls[i], serverID) then DropServers(ls[i], {serverID}) else ls[i])
  }

  /** AddServerToLeaf once its checks have passed. */
  function AppendServerTo(ls: seq<LeafRec>, info: ServerInfo, leafID: u16): (r: seq<LeafRec>)
    ensures |r| == |ls|
  {
    seq(|ls|, i requires 0 <= i < |ls| =>
      if ls[i].id == leafID then AppendServer(ls[i], info) else ls[i])
  }

  function AddServer(ls: seq<LeafRec>, info: ServerInfo, leafID: u16): seq<LeafRec> {
    if HasLeaf(ls, leafID) && !AnyHasServer(ls, info.id) then AppendServerTo(ls, info, leafID) else ls
  }

  predicate AddressTaken(ls: seq<LeafRec>, info: LeafInfo) {
    exists i | 0 <= i < |ls| :: ls[i].mgmt == info.mgmt && ls[i].address == info.address
  }

  /** No two leaves can be reached under the same addresses. */
  ghost predicate DistinctAddresses(ls: seq<LeafRec>) {
    forall i, j | 0 <= i < j < |ls| :: ls[i].mgmt != ls[j].mgmt || ls[i].address != ls[j].address
  }

  function AddLeaf(ls: seq<LeafRec>, info: LeafInfo): seq<LeafRec> {
    if HasLeaf(ls, info.id) || AddressTaken(ls, info) then ls
    else ls + [FreshLeaf(info, Trunc(|ls|))]
  }

  function ShiftIndexes(ls: seq<LeafRec>): (r: seq<LeafRec>)
    ensures |r| == |ls|
  {
    seq(|ls|, i requires 0 <= i < |ls| => ls[i].(index := Wrap(ls[i].index - 1)))
  }

  /** The later siblings of the leaf at position k move down by one, in position and in `index`. */
  function RemoveLeafAtPosition(ls: seq<LeafRec>, k: nat): seq<LeafRec>
    requires k <= |ls|
  {
    if k == |ls| then ls else ls[..k] + ShiftIndexes(ls[k+1..])
  }

  function RemoveLeaf(ls: seq<LeafRec>, leafID: u16): seq<LeafRec> {
    RemoveLeafAtPosition(ls, PositionOf(ls, leafID))
  }
}
