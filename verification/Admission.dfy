/** The checks of AddLeafToSpine and AddServerToLeaf (core/model/topology.go) and what they keep: no two leaves of
    a spine have the same RPC address, and no ID is used twice, at central and at every replica, whatever messages
    come in whatever order. */
module Admission {
  import opened Words
  import opened TopologySpec
  import opened WorkerRanges
  import opened SpineContents
  import opened SpineShape
  import opened Replication
  import opened CentralLog
  import opened CentralRuns
  import VCRegistry

  /** A leaf is accepted if and only if no leaf has its ID and none has both its addresses; it comes last. */
  lemma LeafAcceptedIff(ls: seq<LeafRec>, info: LeafInfo)
    ensures Apply(ls, AddLeafMsg(info)) == ls <==>
            exists l | l in ls :: l.id == info.id || (l.mgmt == info.mgmt && l.address == info.address)
    ensures (forall l | l in ls :: l.id != info.id && (l.mgmt != info.mgmt || l.address != info.address)) ==>
            Apply(ls, AddLeafMsg(info)) == ls + [FreshLeaf(info, Trunc(|ls|))]
  {
    if i :| 0 <= i < |ls| && (ls[i].id == info.id || (ls[i].mgmt == info.mgmt && ls[i].address == info.address)) {
      assert ls[i] in ls;
    }
  }

  lemma RemovedKeepAddresses(ls: seq<LeafRec>, id: u16)
    requires DistinctAddresses(ls)
    ensures DistinctAddresses(RemoveLeaf(ls, id))
  {
  }

  lemma ApplyKeepsAddresses(ls: seq<LeafRec>, m: Msg)
    requires DistinctAddresses(ls)
    ensures DistinctAddresses(Apply(ls, m))
  {
    match m
    case AddLeafMsg(leaf) => LeafAcceptedIff(ls, leaf);
    case FailLeafMsg(id) => RemovedKeepAddresses(ls, id);
    case _ =>
  }

  /** Over any messages, in any order, whether nodes are known or not and IDs are used again or not. */
  lemma {:induction false} RunKeepsAddresses(ls: seq<LeafRec>, ms: seq<Msg>)
    requires DistinctAddresses(ls)
    ensures DistinctAddresses(Run(ls, ms))
  {
    if ms != [] {
      RunKeepsAddresses(ls, ms[..|ms|-1]);
      ApplyKeepsAddresses(Run(ls, ms[..|ms|-1]), ms[|ms|-1]);
    }
  }

  /** Central's leaves, over any run of requests. */
  lemma CentralKeepsAddresses(ls: seq<LeafRec>, reg: VCRegistry.Registry, here: set<u16>, qs: seq<Client>)
    requires DistinctAddresses(ls)
    ensures DistinctAddresses(RunAll(Start(ls, reg, here), qs).c.leaves)
  {
    RunIsServeAll(ls, reg, here, qs);
    CentralIsRunOfDone(ls, RequestsOf(Start(ls, reg, here), qs));
    RunKeepsAddresses(ls, ServeAll(ls, RequestsOf(Start(ls, reg, here), qs)).done);
  }

  // ---------- servers ----------

  lemma HasLeafIff(ls: seq<LeafRec>, id: u16)
    ensures HasLeaf(ls, id) <==> exists l | l in ls :: l.id == id
    ensures AnyHasServer(ls, id) <==> exists l | l in ls :: id in Ids(l)
  {
    forall i | 0 <= i < |ls| ensures ls[i] in ls && (HasServer(ls[i], id) <==> id in Ids(ls[i])) {
      HasServerIds(ls[i], id);
    }
  }

  /** A server is refused if its leaf is not there or a server with its ID is below the spine already.
      Otherwise it comes last below its leaf, and no other leaf changes. */
  lemma ServerAcceptedIff(ls: seq<LeafRec>, info: ServerInfo, parent: u16)
    ensures var now := Apply(ls, AddServerMsg(info, parent));
            if (exists l | l in ls :: l.id == parent) && forall l | l in ls :: info.id !in Ids(l)
            then
              && |now| == |ls|
              && forall i | 0 <= i < |ls| ::
                   if ls[i].id == parent then Contents(now[i].servers) == Contents(ls[i].servers) + [info]
                   else now[i] == ls[i]
            else now == ls
  {
    HasLeafIff(ls, parent);
    HasLeafIff(ls, info.id);
    forall i | 0 <= i < |ls| {
      ContentsOfAppend(ls[i], info);
    }
  }

  // ---------- no ID is used twice ----------

  ghost predicate UniqueIds(ls: seq<LeafRec>) {
    Shape(ls) && forall l | l in ls :: DistinctInfos(Contents(l.servers))
  }

  lemma DistinctAfterAppend(l: LeafRec, info: ServerInfo)
    requires DistinctInfos(Contents(l.servers)) && info.id !in Ids(l)
    ensures DistinctInfos(Contents(AppendServer(l, info).servers))
  {
    ContentsOfAppend(l, info);
    forall i | 0 <= i < |l.servers| ensures Contents(l.servers)[i].id != info.id {
      assert l.servers[i].id in Ids(l);
    }
  }

  lemma DistinctAfterDrop(l: LeafRec, id: u16)
    requires DistinctInfos(Contents(l.servers))
    ensures DistinctInfos(Contents(DropServers(l, {id}).servers))
  {
    KeepDistinct(Contents(l.servers), {id});
    ContentsOfLay(Keep(Contents(l.servers), {id}));
  }

  lemma ServerKeepsUnique(ls: seq<LeafRec>, info: ServerInfo, parent: u16)
    requires UniqueIds(ls)
    ensures UniqueIds(AddServer(ls, info, parent))
  {
    hide AppendServer;
    if HasLeaf(ls, parent) && !AnyHasServer(ls, info.id) {
      HasLeafIff(ls, info.id);
      AddServerShape(ls, info, parent);
      forall i | 0 <= i < |ls| {
        DistinctAfterAppend(ls[i], info);
      }
    }
  }

  lemma FailuresKeepUnique(ls: seq<LeafRec>, id: u16)
    requires UniqueIds(ls)
    ensures UniqueIds(RemoveServer(ls, id))
    ensures HasLeaf(ls, id) ==> UniqueIds(RemoveLeaf(ls, id))
  {
    hide RemoveLeaf, DropServers;
    RemoveServerShape(ls, id);
    forall i | 0 <= i < |ls| {
      DistinctAfterDrop(ls[i], id);
    }
    if HasLeaf(ls, id) {
      RemoveLeafShape(ls, id);
    }
  }

  lemma ApplyKeepsUnique(ls: seq<LeafRec>, m: Msg)
    requires UniqueIds(ls)
    ensures UniqueIds(Apply(ls, m))
  {
    hide UniqueIds, AddServer, RemoveServer;
    match m
    case AddLeafMsg(leaf) => LeafKeepsUnique(ls, leaf);
    case FailLeafMsg(id) =>
      if HasLeaf(ls, id) {
        FailuresKeepUnique(ls, id);
      }
    case AddServerMsg(server, parent) => ServerKeepsUnique(ls, server, parent);
    case FailServerMsg(id) => FailuresKeepUnique(ls, id);
    case _ =>
  }

  lemma LeafKeepsUnique(ls: seq<LeafRec>, leaf: LeafInfo)
    requires UniqueIds(ls)
    ensures UniqueIds(AddLeaf(ls, leaf))
  {
    if !HasLeaf(ls, leaf.id) && !AddressTaken(ls, leaf) {
      AddLeafShape(ls, leaf);
    }
  }

  /** Over any messages, in any order: leaves are at their indexes, and no two leaves and no two servers below the
      spine have the same ID. */
  lemma {:induction false} RunKeepsUnique(ls: seq<LeafRec>, ms: seq<Msg>)
    requires UniqueIds(ls)
    ensures UniqueIds(Run(ls, ms))
  {
    if ms != [] {
      RunKeepsUnique(ls, ms[..|ms|-1]);
      ApplyKeepsUnique(Run(ls, ms[..|ms|-1]), ms[|ms|-1]);
    }
  }
}
