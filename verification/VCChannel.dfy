/** The virtual clusters of a spine, which hears of them over a channel of its own
    (core/net/topologyServer_spine.go). The message about a new cluster may meet a spine that lacks a
    member, because the member's arrival is still under way or its failure was faster. The spine then
    rejects the cluster for good. */
module VCChannel {
  import opened Words
  import opened TopologySpec
  import opened WorkerRanges
  import opened SpineContents
  import opened SpineShape
  import opened Replication

  type Clusters = map<u16, set<u16>>

  /** Every cluster loses the members that are gone; those that lose their last member are dropped. */
  function Without(vcs: Clusters, gone: set<u16>): Clusters {
    map c | c in vcs && (vcs[c] !! gone || vcs[c] - gone != {}) :: vcs[c] - gone
  }

  /** The servers below a leaf. */
  function Below(ls: seq<LeafRec>, leafID: u16): set<u16> {
    if HasLeaf(ls, leafID) then Ids(ls[PositionOf(ls, leafID)]) else {}
  }

  /** The handlers, on clusters: `ls` is the topology when the message is handled. */
  ghost function ApplyVC(vcs: Clusters, ls: seq<LeafRec>, m: Msg): Clusters {
    match m
    case AddLeafMsg(_) => vcs
    case AddServerMsg(_, _) => vcs
    case FailLeafMsg(leafID) => Without(vcs, Below(ls, leafID))
    case FailServerMsg(serverID) => if AnyHasServer(ls, serverID) then Without(vcs, {serverID}) else vcs
    case AddVCMsg(c, servers) => if c in vcs || !(servers <= ServersBelow(ls)) then vcs else vcs[c := servers]
    case RemoveVCMsg(c) => vcs - {c}
  }

  ghost function RunVC(ls: seq<LeafRec>, ms: seq<Msg>): Clusters {
    if ms == [] then map[]
    else ApplyVC(RunVC(ls, ms[..|ms|-1]), Run(ls, ms[..|ms|-1]), ms[|ms|-1])
  }

  // ---------- assumptions ----------

  ghost predicate RunOk(ls: seq<LeafRec>, ms: seq<Msg>) {
    && Shape(ls) && Causal(StripAll(ls), ms)
    && FreshAdds(StripAll(ls), NewLeaves(ms), NewServers(ms))
  }

  lemma RunOkBefore(ls: seq<LeafRec>, ms: seq<Msg>)
    requires RunOk(ls, ms) && ms != []
    ensures RunOk(ls, ms[..|ms|-1])
  {
    var most, m := ms[..|ms|-1], ms[|ms|-1];
    FreshBefore(StripAll(ls), NewLeaves(most), NewServers(most), LeavesIn(m), JoinsIn(m));
  }

  // ---------- which servers are below the spine ----------

  lemma AfterAddLeaf(ls: seq<LeafRec>, leaf: LeafInfo)
    requires Shape(ls)
    ensures Shape(AddLeaf(ls, leaf)) && ServersBelow(AddLeaf(ls, leaf)) == ServersBelow(ls)
  {
    hide Shape, AnyHasServer;
    if !HasLeaf(ls, leaf.id) && !AddressTaken(ls, leaf) {
      LeafAddedNodes(ls, leaf);
    }
  }

  lemma AfterAddServer(ls: seq<LeafRec>, server: ServerInfo, parent: u16)
    requires Shape(ls)
    ensures Shape(AddServer(ls, server, parent))
    ensures ServersBelow(AddServer(ls, server, parent)) ==
            ServersBelow(ls) + (if HasLeaf(ls, parent) then {server.id} else {})
  {
    hide Shape, AnyHasServer, AppendServerTo;
    if HasLeaf(ls, parent) && !AnyHasServer(ls, server.id) {
      ServerAddedNodes(ls, server, parent);
    }
  }

  lemma AfterFailLeaf(ls: seq<LeafRec>, leafID: u16)
    requires Shape(ls)
    ensures Shape(RemoveLeaf(ls, leafID)) &&
            ServersBelow(RemoveLeaf(ls, leafID)) == ServersBelow(ls) - Below(ls, leafID)
  {
    hide Shape, AnyHasServer, Ids;
    if HasLeaf(ls, leafID) {
      hide RemoveLeaf;
      LeafFailedNodes(ls, leafID);
    }
  }

  lemma AfterFailServer(ls: seq<LeafRec>, serverID: u16)
    requires Shape(ls)
    ensures Shape(RemoveServer(ls, serverID)) &&
            ServersBelow(RemoveServer(ls, serverID)) == ServersBelow(ls) - {serverID}
  {
    hide Shape, AnyHasServer, RemoveServer;
    ServerFailedNodes(ls, serverID);
  }

  /** One message: the servers below the spine before and after. */
  lemma ServersAfter(ls: seq<LeafRec>, m: Msg)
    requires Shape(ls)
    ensures Shape(Apply(ls, m))
    ensures ServersBelow(Apply(ls, m)) ==
            match m
            case FailLeafMsg(leafID) => ServersBelow(ls) - Below(ls, leafID)
            case FailServerMsg(serverID) => ServersBelow(ls) - {serverID}
            case AddServerMsg(server, parent) => ServersBelow(ls) + (if HasLeaf(ls, parent) then {server.id} else {})
            case _ => ServersBelow(ls)
  {
    hide Shape, ServersBelow, Below, HasLeaf, AddLeaf, AddServer, RemoveServer, RemoveLeaf;
    match m
    case AddLeafMsg(leaf) => AfterAddLeaf(ls, leaf);
    case AddServerMsg(server, parent) => AfterAddServer(ls, server, parent);
    case FailLeafMsg(leafID) => AfterFailLeaf(ls, leafID);
    case FailServerMsg(serverID) => AfterFailServer(ls, serverID);
    case _ =>
  }

  // ---------- the channel ----------

  function IsVC(m: Msg): bool {
    m.AddVCMsg? || m.RemoveVCMsg?
  }

  /** The channel of virtual clusters, in its order. */
  function VCs(ms: seq<Msg>): seq<Msg> {
    if ms == [] then []
    else VCs(ms[..|ms|-1]) + if IsVC(ms[|ms|-1]) then [ms[|ms|-1]] else []
  }

  /** What it carries about one cluster ID. */
  function About(vs: seq<Msg>, c: u16): seq<Msg> {
    if vs == [] then []
    else About(vs[..|vs|-1], c) + if IsVC(vs[|vs|-1]) && vs[|vs|-1].clusterID == c then [vs[|vs|-1]] else []
  }

  /** The messages of a run about one cluster ID. */
  function Chan(ms: seq<Msg>, c: u16): seq<Msg> {
    About(VCs(ms), c)
  }

  lemma ChanSnoc(ms: seq<Msg>, c: u16)
    requires ms != []
    ensures var most, m := ms[..|ms|-1], ms[|ms|-1];
            Chan(ms, c) == if IsVC(m) && m.clusterID == c then Chan(most, c) + [m] else Chan(most, c)
  {
    var most, m := ms[..|ms|-1], ms[|ms|-1];
    if IsVC(m) {
      assert VCs(ms) == VCs(most) + [m];
      assert (VCs(most) + [m])[..|VCs(most)|] == VCs(most);
    } else {
      assert VCs(ms) == VCs(most);
    }
  }

  /** Message k of the run is message n about its cluster ID. */
  ghost predicate IsAt(ms: seq<Msg>, c: u16, k: nat, n: nat) {
    k < |ms| && IsVC(ms[k]) && ms[k].clusterID == c && |Chan(ms[..k], c)| == n
  }

  lemma {:induction false} IsAtMeans(ms: seq<Msg>, c: u16, k: nat, n: nat)
    requires IsAt(ms, c, k, n)
    ensures n < |Chan(ms, c)| && Chan(ms, c)[n] == ms[k]
  {
    ChanSnoc(ms, c);
    if k < |ms| - 1 {
      assert ms[..|ms|-1][..k] == ms[..k];
      IsAtMeans(ms[..|ms|-1], c, k, n);
    }
  }

  lemma {:induction false} PlaceInRun(ms: seq<Msg>, c: u16, n: nat) returns (k: nat)
    requires n < |Chan(ms, c)|
    ensures IsAt(ms, c, k, n)
  {
    var most := ms[..|ms|-1];
    ChanSnoc(ms, c);
    if n < |Chan(most, c)| {
      k := PlaceInRun(most, c, n);
      assert most[..k] == ms[..k];
    } else {
      k := |ms| - 1;
    }
  }

  lemma {:induction false} ChanGrows(ms: seq<Msg>, c: u16, k: nat)
    requires k <= |ms|
    ensures |Chan(ms[..k], c)| <= |Chan(ms, c)|
    ensures k < |ms| && IsVC(ms[k]) && ms[k].clusterID == c ==> |Chan(ms[..k], c)| < |Chan(ms, c)|
  {
    if k < |ms| {
      ChanSnoc(ms, c);
      assert ms[..|ms|-1][..k] == ms[..k];
      ChanGrows(ms[..|ms|-1], c, k);
    } else {
      assert ms[..k] == ms;
    }
  }

  /** The order in the run is the order in the channel. */
  lemma SameOrder(ms: seq<Msg>, c: u16, j: nat, k: nat, m: nat, n: nat)
    requires IsAt(ms, c, j, m) && IsAt(ms, c, k, n)
    ensures j < k <==> m < n
  {
    if j < k {
      assert ms[..k][..j] == ms[..j];
      ChanGrows(ms[..k], c, j);
    } else if k < j {
      assert ms[..j][..k] == ms[..k];
      ChanGrows(ms[..j], c, k);
    }
  }

  // ---------- the fate of one cluster ----------

  /** The spine had all members when the cluster was announced to it, and no cluster with the ID. */
  ghost predicate AcceptedAt(ls: seq<LeafRec>, ms: seq<Msg>, k: nat)
    requires k < |ms| && ms[k].AddVCMsg?
  {
    ms[k].servers <= ServersBelow(Run(ls, ms[..k])) && ms[k].clusterID !in RunVC(ls, ms[..k])
  }

  /** No removal of the cluster from position k on. */
  ghost predicate NotRemovedFrom(ms: seq<Msg>, c: u16, k: nat) {
    forall i | k <= i < |ms| :: ms[i] != RemoveVCMsg(c)
  }

  /** A cluster with the members `all` has lost its last one. */
  predicate Emptied(all: set<u16>, live: set<u16>) {
    all != {} && all !! live
  }

  /** The spine's cluster is what is left of the members `all`. */
  ghost predicate Holds(vcs: Clusters, c: u16, all: set<u16>, live: set<u16>) {
    c in vcs && vcs[c] == all * live && !Emptied(all, live)
  }

  lemma DisjointIff(a: set<u16>, b: set<u16>)
    ensures a !! b <==> a * b == {}
  {
    if !(a !! b) {
      var x :| x in a && x in b;
      assert x in a * b;
    }
  }

  lemma LossKeeps(vcs: Clusters, c: u16, all: set<u16>, live: set<u16>, gone: set<u16>)
    requires Holds(vcs, c, all, live)
    ensures c in Without(vcs, gone) <==> !Emptied(all, live - gone)
    ensures c in Without(vcs, gone) ==> Holds(Without(vcs, gone), c, all, live - gone)
  {
    DisjointIff(all, live - gone);
    DisjointIff(all, live);
    assert all * live - gone == all * (live - gone);
    if all * live !! gone {
      assert all * (live - gone) == all * live;
    }
  }

  /** One message after which the cluster is still there, on a spine to which no member comes. */
  lemma StepKeeps(was: Clusters, ls: seq<LeafRec>, m: Msg, c: u16, all: set<u16>)
    requires Shape(ls) && Holds(was, c, all, ServersBelow(ls))
    requires m.AddServerMsg? ==> m.server.id !in all
    ensures var now, live := ApplyVC(was, ls, m), ServersBelow(Apply(ls, m));
            && all * live <= all * ServersBelow(ls)
            && (c in now <==> m != RemoveVCMsg(c) && !Emptied(all, live))
            && (c in now ==> Holds(now, c, all, live))
  {
    hide Holds, Without, ServersBelow, Below, Apply, AnyHasServer, Emptied;
    var live := ServersBelow(ls);
    HoldsMeans(was, c, all, live);
    ServersAfter(ls, m);
    match m
    case FailLeafMsg(leafID) => LossKeeps(was, c, all, live, Below(ls, leafID));
    case FailServerMsg(serverID) =>
      LossKeeps(was, c, all, live, {serverID});
      if !AnyHasServer(ls, serverID) {
        assert live - {serverID} == live;
      }
    case AddServerMsg(server, parent) =>
      SameMembers(was, c, all, live, ServersBelow(Apply(ls, m)));
    case AddVCMsg(d, servers) => OthersStay(was, c, all, live, d, servers);
    case RemoveVCMsg(d) => OthersGo(was, c, all, live, d);
    case _ =>
  }

  lemma HoldsMeans(vcs: Clusters, c: u16, all: set<u16>, live: set<u16>)
    requires Holds(vcs, c, all, live)
    ensures c in vcs && !Emptied(all, live)
  {
  }

  lemma SameMembers(vcs: Clusters, c: u16, all: set<u16>, live: set<u16>, more: set<u16>)
    requires Holds(vcs, c, all, live) && live <= more && forall x | x in more - live :: x !in all
    ensures Holds(vcs, c, all, more) && all * more == all * live && !Emptied(all, more)
  {
    assert all * more == all * live;
    DisjointIff(all, live);
    DisjointIff(all, more);
  }

  lemma OthersStay(vcs: Clusters, c: u16, all: set<u16>, live: set<u16>, d: u16, servers: set<u16>)
    requires Holds(vcs, c, all, live)
    ensures d != c ==> Holds(vcs[d := servers], c, all, live)
  {
  }

  lemma OthersGo(vcs: Clusters, c: u16, all: set<u16>, live: set<u16>, d: u16)
    requires Holds(vcs, c, all, live)
    ensures d != c ==> Holds(vcs - {d}, c, all, live)
  {
  }

  /** A server that joins under a fresh ID is no member of a cluster that was accepted before. */
  lemma NewcomerIsNoMember(c0: seq<LeafInfo>, nl: seq<LeafInfo>, js: seq<Join>, j: Join, all: set<u16>)
    requires FreshAdds(c0, nl, js + [j])
    requires forall s | s in all :: KnowsServer(c0, js, s)
    ensures j.server.id !in all
  {
    NewServerUnknown(c0, nl, js, j);
  }

  lemma {:induction false} RunShape(ls: seq<LeafRec>, ms: seq<Msg>)
    requires Shape(ls)
    ensures Shape(Run(ls, ms))
  {
    if ms != [] {
      RunShape(ls, ms[..|ms|-1]);
      ServersAfter(Run(ls, ms[..|ms|-1]), ms[|ms|-1]);
    }
  }

  lemma KnownStaysKnown(c0: seq<LeafInfo>, js: seq<Join>, more: seq<Join>, id: u16)
    requires KnowsServer(c0, js, id)
    ensures KnowsServer(c0, js + more, id)
  {
    if j :| j in js && j.server.id == id {
      assert j in js + more;
    }
  }

  lemma {:induction false} RunOkPrefix(ls: seq<LeafRec>, ms: seq<Msg>, j: nat)
    requires RunOk(ls, ms) && j <= |ms|
    ensures RunOk(ls, ms[..j])
  {
    if j < |ms| {
      RunOkBefore(ls, ms);
      RunOkPrefix(ls, ms[..|ms|-1], j);
      assert ms[..|ms|-1][..j] == ms[..j];
    } else {
      assert ms[..j] == ms;
    }
  }

  ghost predicate AllKnown(ls: seq<LeafRec>, ms: seq<Msg>, all: set<u16>) {
    forall s | s in all :: KnowsServer(StripAll(ls), NewServers(ms), s)
  }

  lemma KnownOneMore(ls: seq<LeafRec>, ms: seq<Msg>, all: set<u16>)
    requires ms != [] && AllKnown(ls, ms[..|ms|-1], all)
    ensures AllKnown(ls, ms, all)
  {
    forall s | s in all ensures KnowsServer(StripAll(ls), NewServers(ms), s) {
      KnownStaysKnown(StripAll(ls), NewServers(ms[..|ms|-1]), JoinsIn(ms[|ms|-1]), s);
    }
  }

  lemma NoMemberComes(ls: seq<LeafRec>, ms: seq<Msg>, all: set<u16>)
    requires RunOk(ls, ms) && ms != [] && AllKnown(ls, ms[..|ms|-1], all)
    ensures ms[|ms|-1].AddServerMsg? ==> ms[|ms|-1].server.id !in all
  {
    var most, m := ms[..|ms|-1], ms[|ms|-1];
    if m.AddServerMsg? {
      NewcomerIsNoMember(StripAll(ls), NewLeaves(ms), NewServers(most), Join(m.server, m.parent), all);
    }
  }

  /** Known servers only go. */
  lemma {:induction false} MembersShrink(ls: seq<LeafRec>, ms: seq<Msg>, j: nat, all: set<u16>)
    requires RunOk(ls, ms) && j <= |ms| && AllKnown(ls, ms[..j], all)
    ensures all * ServersBelow(Run(ls, ms)) <= all * ServersBelow(Run(ls, ms[..j]))
    ensures AllKnown(ls, ms, all)
  {
    hide RunOk, AllKnown, ServersBelow, Apply, Below;
    if j < |ms| {
      var most, m := ms[..|ms|-1], ms[|ms|-1];
      RunOkBefore(ls, ms);
      assert most[..j] == ms[..j];
      MembersShrink(ls, most, j, all);
      NoMemberComes(ls, ms, all);
      ShapeOfRun(ls, ms);
      ServersAfter(Run(ls, most), m);
      KnownOneMore(ls, ms, all);
    } else {
      assert ms[..j] == ms;
    }
  }

  lemma ShapeOfRun(ls: seq<LeafRec>, ms: seq<Msg>)
    requires RunOk(ls, ms) && ms != []
    ensures Shape(Run(ls, ms[..|ms|-1]))
  {
    RunShape(ls, ms[..|ms|-1]);
  }

  lemma AcceptedIsKnown(ls: seq<LeafRec>, ms: seq<Msg>, k: nat)
    requires k < |ms| && ms[k].AddVCMsg? && AcceptedAt(ls, ms, k)
    ensures AllKnown(ls, ms[..k+1], ms[k].servers)
  {
    LiveNodesAreKnown(ls, ms[..k]);
    assert ms[..k+1][..k] == ms[..k];
    KnownOneMore(ls, ms[..k+1], ms[k].servers);
  }

  lemma JustAccepted(ls: seq<LeafRec>, ms: seq<Msg>)
    requires ms != [] && ms[|ms|-1].AddVCMsg? && AcceptedAt(ls, ms, |ms| - 1)
    ensures Holds(RunVC(ls, ms), ms[|ms|-1].clusterID, ms[|ms|-1].servers, ServersBelow(Run(ls, ms)))
  {
    var m, live := ms[|ms|-1], ServersBelow(Run(ls, ms[..|ms|-1]));
    assert m.servers * live == m.servers;
    DisjointIff(m.servers, live);
  }

  lemma FewerEmptied(all: set<u16>, live: set<u16>, more: set<u16>)
    requires all * live <= all * more && !Emptied(all, live)
    ensures !Emptied(all, more)
  {
    DisjointIff(all, live);
    DisjointIff(all, more);
  }

  /** An accepted cluster that is not removed is there, with the members that are left, as long as there
      are any. */
  lemma {:induction false} Persists(ls: seq<LeafRec>, ms: seq<Msg>, k: nat)
    requires RunOk(ls, ms) && k < |ms| && ms[k].AddVCMsg? && AcceptedAt(ls, ms, k)
    requires NotRemovedFrom(ms, ms[k].clusterID, k) && !Emptied(ms[k].servers, ServersBelow(Run(ls, ms)))
    ensures Holds(RunVC(ls, ms), ms[k].clusterID, ms[k].servers, ServersBelow(Run(ls, ms)))
  {
    hide RunOk, AllKnown, ServersBelow, Apply, ApplyVC, Holds, Emptied, Shape;
    if k == |ms| - 1 {
      JustAccepted(ls, ms);
    } else {
      var most, m, c, all := ms[..|ms|-1], ms[|ms|-1], ms[k].clusterID, ms[k].servers;
      assert most[..k] == ms[..k] && most[k] == ms[k] && most[..k+1] == ms[..k+1];
      RunOkBefore(ls, ms);
      AcceptedIsKnown(ls, ms, k);
      MembersShrink(ls, most, k + 1, all);
      NoMemberComes(ls, ms, all);
      OneLess(ls, ms, all);
      FewerEmptied(all, ServersBelow(Run(ls, ms)), ServersBelow(Run(ls, most)));
      Persists(ls, most, k);
      ShapeOfRun(ls, ms);
      StepKeeps(RunVC(ls, most), Run(ls, most), m, c, all);
    }
  }

  lemma OneLess(ls: seq<LeafRec>, ms: seq<Msg>, all: set<u16>)
    requires RunOk(ls, ms) && ms != [] && AllKnown(ls, ms[..|ms|-1], all)
    ensures all * ServersBelow(Run(ls, ms)) <= all * ServersBelow(Run(ls, ms[..|ms|-1]))
  {
    MembersShrink(ls, ms, |ms| - 1, all);
  }

  /** Where a cluster comes from. */
  lemma {:induction false} Origin(ls: seq<LeafRec>, ms: seq<Msg>, c: u16) returns (k: nat)
    requires RunOk(ls, ms) && c in RunVC(ls, ms)
    ensures k < |ms| && ms[k].AddVCMsg? && ms[k].clusterID == c && AcceptedAt(ls, ms, k)
    ensures NotRemovedFrom(ms, c, k) && Holds(RunVC(ls, ms), c, ms[k].servers, ServersBelow(Run(ls, ms)))
  {
    hide RunOk, AllKnown, ServersBelow, Apply, Holds, Emptied, Shape, Without;
    var most, m := ms[..|ms|-1], ms[|ms|-1];
    if c in RunVC(ls, most) {
      RunOkBefore(ls, ms);
      k := Origin(ls, most, c);
      assert most[..k] == ms[..k] && most[k] == ms[k] && most[..k+1] == ms[..k+1];
      AcceptedIsKnown(ls, ms, k);
      MembersShrink(ls, most, k + 1, ms[k].servers);
      NoMemberComes(ls, ms, ms[k].servers);
      ShapeOfRun(ls, ms);
      StepKeeps(RunVC(ls, most), Run(ls, most), m, c, ms[k].servers);
    } else {
      k := |ms| - 1;
      OnlyCreation(RunVC(ls, most), Run(ls, most), m, c);
      JustAccepted(ls, ms);
    }
  }

  lemma OnlyCreation(vcs: Clusters, ls: seq<LeafRec>, m: Msg, c: u16)
    requires c !in vcs && c in ApplyVC(vcs, ls, m)
    ensures m.AddVCMsg? && m.clusterID == c && m.servers <= ServersBelow(ls)
  {
  }

  // ---------- two spines, or a spine and what central announced ----------

  /** In the first run every cluster was accepted. */
  ghost predicate AllAccepted(ls: seq<LeafRec>, ms: seq<Msg>) {
    forall k | 0 <= k < |ms| && ms[k].AddVCMsg? :: AcceptedAt(ls, ms, k)
  }

  /** The message is the last one about its cluster ID, and it announces the cluster. */
  ghost predicate LastWord(ms: seq<Msg>, k: nat) {
    && k < |ms| && ms[k].AddVCMsg?
    && forall i | k < i < |ms| && IsVC(ms[i]) :: ms[i].clusterID != ms[k].clusterID
  }

  lemma LastWordIs(ms: seq<Msg>, c: u16, k: nat)
    requires k < |ms| && ms[k].AddVCMsg? && ms[k].clusterID == c
    ensures LastWord(ms, k) <==> Chan(ms, c) != [] && IsAt(ms, c, k, |Chan(ms, c)| - 1)
  {
    var n := |Chan(ms[..k], c)|;
    IsAtMeans(ms, c, k, n);
    if n + 1 < |Chan(ms, c)| {
      var i := PlaceInRun(ms, c, n + 1);
      SameOrder(ms, c, k, i, n, n + 1);
    }
    forall i | k < i < |ms| && IsVC(ms[i]) && ms[i].clusterID == c ensures n + 1 < |Chan(ms, c)| {
      SameOrder(ms, c, k, i, n, |Chan(ms[..i], c)|);
      IsAtMeans(ms, c, i, |Chan(ms[..i], c)|);
    }
  }

  /** A cluster that was accepted and could still be there is not announced again. */
  lemma NoSecond(ls: seq<LeafRec>, ms: seq<Msg>, j: nat, k: nat)
    requires RunOk(ls, ms) && AllAccepted(ls, ms) && j < k < |ms| && ms[j].AddVCMsg? && ms[k].AddVCMsg?
    requires ms[j].clusterID == ms[k].clusterID
    requires !Emptied(ms[j].servers, ServersBelow(Run(ls, ms)))
    ensures !NotRemovedFrom(ms[..k], ms[j].clusterID, j)
  {
    hide RunOk, AllKnown, ServersBelow, Emptied;
    assert ms[..k][..j] == ms[..j] && ms[..k][..j+1] == ms[..j+1];
    RunOkPrefix(ls, ms, k);
    AcceptedIsKnown(ls, ms, j);
    MembersShrink(ls, ms[..k], j + 1, ms[j].servers);
    MembersShrink(ls, ms, k, ms[j].servers);
    FewerEmptied(ms[j].servers, ServersBelow(Run(ls, ms)), ServersBelow(Run(ls, ms[..k])));
    assert AcceptedAt(ls, ms, k) && AcceptedAt(ls, ms, j);
    if NotRemovedFrom(ms[..k], ms[j].clusterID, j) {
      Persists(ls, ms[..k], j);
    }
  }

  /** Nothing about the ID lies between two neighbours of the channel. */
  lemma Neighbours(ms: seq<Msg>, c: u16, j: nat, k: nat, n: nat)
    requires IsAt(ms, c, j, n) && IsAt(ms, c, k, n + 1) && ms[j].AddVCMsg?
    ensures j < k && NotRemovedFrom(ms[..k], c, j)
  {
    SameOrder(ms, c, j, k, n, n + 1);
    forall i | j < i < k ensures ms[i] != RemoveVCMsg(c) {
      if ms[i] == RemoveVCMsg(c) {
        var m := |Chan(ms[..i], c)|;
        SameOrder(ms, c, j, i, n, m);
        SameOrder(ms, c, i, k, m, n + 1);
      }
    }
  }

  /** If the channel goes on after an announcement whose cluster could still be there, then with its removal. */
  lemma RemovedNext(ls: seq<LeafRec>, sent: seq<Msg>, c: u16, n: nat)
    requires RunOk(ls, sent) && AllAccepted(ls, sent) && n + 1 < |Chan(sent, c)|
    requires Chan(sent, c)[n].AddVCMsg? && !Emptied(Chan(sent, c)[n].servers, ServersBelow(Run(ls, sent)))
    ensures Chan(sent, c)[n + 1] == RemoveVCMsg(c)
  {
    hide RunOk, ServersBelow, Emptied, AllAccepted;
    var j := PlaceInRun(sent, c, n);
    var k := PlaceInRun(sent, c, n + 1);
    IsAtMeans(sent, c, j, n);
    IsAtMeans(sent, c, k, n + 1);
    Neighbours(sent, c, j, k, n);
    if sent[k].AddVCMsg? {
      NoSecond(ls, sent, j, k);
    }
  }

  /** Messages that are handled in any causal merge, and the run that sent them. */
  ghost predicate Merges(ls: seq<LeafRec>, sent: seq<Msg>, got: seq<Msg>) {
    && RunOk(ls, sent) && RunOk(ls, got) && SameChannels(sent, got) && VCs(sent) == VCs(got)
    && AllAccepted(ls, sent)
  }

  /** What a spine has under an ID is what the last word about it announced. */
  lemma FromLastWord(ls: seq<LeafRec>, sent: seq<Msg>, got: seq<Msg>, c: u16) returns (k: nat)
    requires Merges(ls, sent, got) && c in RunVC(ls, got)
    ensures LastWord(got, k) && got[k].clusterID == c && AcceptedAt(ls, got, k)
    ensures Holds(RunVC(ls, got), c, got[k].servers, ServersBelow(Run(ls, got)))
  {
    hide RunOk, ServersBelow, Emptied, AllAccepted, Holds;
    k := Origin(ls, got, c);
    var n := |Chan(got[..k], c)|;
    IsAtMeans(got, c, k, n);
    LastWordIs(got, c, k);
    if n + 1 < |Chan(got, c)| {
      SameServers(ls, sent, got);
      HoldsMeans(RunVC(ls, got), c, got[k].servers, ServersBelow(Run(ls, got)));
      RemovedNext(ls, sent, c, n);
      var i := PlaceInRun(got, c, n + 1);
      IsAtMeans(got, c, i, n + 1);
      SameOrder(got, c, k, i, n, n + 1);
    }
  }

  lemma SameServers(ls: seq<LeafRec>, sent: seq<Msg>, got: seq<Msg>)
    requires Merges(ls, sent, got)
    ensures ServersBelow(Run(ls, sent)) == ServersBelow(Run(ls, got))
  {
    Confluence(ls, sent, got);
    SameServersBelow(Run(ls, sent), Run(ls, got));
  }

  lemma SameServersBelow(a: seq<LeafRec>, b: seq<LeafRec>)
    requires StripAll(a) == StripAll(b)
    ensures ServersBelow(a) == ServersBelow(b)
  {
    assert |a| == |StripAll(a)| == |b|;
    forall s ensures s in ServersBelow(a) <==> s in ServersBelow(b) {
      AnyHasServerIds(a, s);
      AnyHasServerIds(b, s);
      forall i | 0 <= i < |a| ensures s in Ids(a[i]) <==> s in Ids(b[i]) {
        assert Strip(a[i]) == StripAll(a)[i] == StripAll(b)[i] == Strip(b[i]);
        IdsOfContents(a[i], s);
        IdsOfContents(b[i], s);
      }
    }
  }

  /** One cluster ID at the end: its last word decides. */
  lemma LastWordDecides(ls: seq<LeafRec>, sent: seq<Msg>, got: seq<Msg>, k: nat)
    requires Merges(ls, sent, got) && LastWord(got, k)
    ensures var c, live := got[k].clusterID, ServersBelow(Run(ls, got));
            var lasts := !Emptied(got[k].servers, live);
            && (c in RunVC(ls, got) <==> lasts && AcceptedAt(ls, got, k))
            && (c in RunVC(ls, got) ==> RunVC(ls, got)[c] == got[k].servers * live)
  {
    hide RunOk, ServersBelow, Emptied, AllAccepted;
    var c, live := got[k].clusterID, ServersBelow(Run(ls, got));
    if c in RunVC(ls, got) {
      var i := FromLastWord(ls, sent, got, c);
      assert i == k;
    } else if AcceptedAt(ls, got, k) && !Emptied(got[k].servers, live) {
      Persists(ls, got, k);
    }
  }

  /** A cluster ID with the same last word in both runs. */
  lemma SameLastWord(ls: seq<LeafRec>, sent: seq<Msg>, got: seq<Msg>, k: nat) returns (j: nat)
    requires Merges(ls, sent, got) && LastWord(got, k)
    ensures LastWord(sent, j) && sent[j] == got[k] && AcceptedAt(ls, sent, j)
  {
    hide RunOk, SameChannels;
    var c := got[k].clusterID;
    LastWordIs(got, c, k);
    var n := |Chan(got, c)| - 1;
    IsAtMeans(got, c, k, n);
    j := PlaceInRun(sent, c, n);
    IsAtMeans(sent, c, j, n);
    LastWordIs(sent, c, j);
  }

  lemma MergesItself(ls: seq<LeafRec>, sent: seq<Msg>, got: seq<Msg>)
    requires Merges(ls, sent, got)
    ensures Merges(ls, sent, sent) && RunOk(ls, sent)
  {
  }

  lemma SameAtEnd(ls: seq<LeafRec>, sent: seq<Msg>, got: seq<Msg>, k: nat)
    requires Merges(ls, sent, got) && LastWord(got, k)
    ensures k < |got| && got[k].AddVCMsg?
    ensures var c := got[k].clusterID;
            var lasts := !Emptied(got[k].servers, ServersBelow(Run(ls, got)));
            && (c in RunVC(ls, sent) <==> lasts)
            && (c in RunVC(ls, got) <==> lasts && AcceptedAt(ls, got, k))
            && (c in RunVC(ls, sent) && c in RunVC(ls, got) ==> RunVC(ls, sent)[c] == RunVC(ls, got)[c])
  {
    hide RunOk, ServersBelow, Emptied, Merges;
    MergesItself(ls, sent, got);
    var j := SameLastWord(ls, sent, got, k);
    LastWordDecides(ls, sent, got, k);
    LastWordDecides(ls, sent, sent, j);
    SameServers(ls, sent, got);
  }

  lemma HasLastWord(ls: seq<LeafRec>, sent: seq<Msg>, got: seq<Msg>, c: u16)
    requires Merges(ls, sent, got) && (c in RunVC(ls, sent) || c in RunVC(ls, got))
    ensures exists k: nat :: LastWord(got, k) && got[k].clusterID == c
  {
    hide RunOk, ServersBelow, Emptied, SameChannels;
    if c in RunVC(ls, got) {
      var k := FromLastWord(ls, sent, got, c);
    } else {
      MergesItself(ls, sent, got);
      var j := FromLastWord(ls, sent, sent, c);
      LastWordIs(sent, c, j);
      var n := |Chan(sent, c)| - 1;
      IsAtMeans(sent, c, j, n);
      var k := PlaceInRun(got, c, n);
      IsAtMeans(got, c, k, n);
      LastWordIs(got, c, k);
    }
  }

  /** A spine that has received, in any causal merge, the messages of a run in which every cluster was
      accepted ends with that run's clusters, if and only if it too accepted each cluster whose announcement
      is the last word about its ID and that has members left: it had all the members when the message
      came, and no cluster with the ID any more. */
  lemma SpineClustersIff(ls: seq<LeafRec>, sent: seq<Msg>, got: seq<Msg>)
    requires Merges(ls, sent, got)
    ensures RunVC(ls, got) == RunVC(ls, sent) <==>
            forall k: nat | LastWord(got, k) && !Emptied(got[k].servers, ServersBelow(Run(ls, got))) ::
              AcceptedAt(ls, got, k)
  {
    hide AcceptedAt, LastWord, RunVC, Merges, Emptied, ServersBelow;
    forall k: nat | LastWord(got, k)
      ensures k < |got| && got[k].AddVCMsg?
      ensures var c := got[k].clusterID;
              var lasts := !Emptied(got[k].servers, ServersBelow(Run(ls, got)));
              && (c in RunVC(ls, sent) <==> lasts)
              && (c in RunVC(ls, got) <==> lasts && AcceptedAt(ls, got, k))
              && (c in RunVC(ls, sent) && c in RunVC(ls, got) ==> RunVC(ls, sent)[c] == RunVC(ls, got)[c])
    {
      SameAtEnd(ls, sent, got, k);
    }
    forall c | c in RunVC(ls, sent) || c in RunVC(ls, got)
      ensures exists k: nat :: LastWord(got, k) && k < |got| && got[k].AddVCMsg? && got[k].clusterID == c
    {
      HasLastWord(ls, sent, got, c);
    }
  }

  lemma RunOneMore(ls: seq<LeafRec>, ms: seq<Msg>, m: Msg)
    ensures Run(ls, ms + [m]) == Apply(Run(ls, ms), m)
    ensures RunVC(ls, ms + [m]) == ApplyVC(RunVC(ls, ms), Run(ls, ms), m)
  {
    assert (ms + [m])[..|ms|] == ms;
  }

  lemma LosesOne(c: u16)
    ensures Without(map[c := {1, 2}], {1}) == map[c := {2}] && Without(map[], {1}) == map[]
  {
    assert {1, 2} - {1} == {2};
  }

  /** The failing input: a cluster of servers 1 and 2, and server 1 fails. Where the failure is faster than
      the cluster, the cluster is rejected; where the cluster came first, it lives on with server 2. */
  lemma FailureOvertakesCluster(ls: seq<LeafRec>, c: u16)
    requires ServersBelow(ls) == {1, 2} && Shape(ls)
    ensures RunVC(ls, [AddVCMsg(c, {1, 2}), FailServerMsg(1)]) == map[c := {2}]
    ensures RunVC(ls, [FailServerMsg(1), AddVCMsg(c, {1, 2})]) == map[]
  {
    hide ServersBelow, Apply, Run, RunVC, Without, Shape;
    var add, fail := AddVCMsg(c, {1, 2}), FailServerMsg(1);
    Starts(ls, add);
    Starts(ls, fail);
    LosesOne(c);
    ServersAfter(ls, fail);
    ServersAfter(ls, add);
    assert 1 in ServersBelow(ls) && 1 !in ServersBelow(Apply(ls, fail));
    assert [add, fail] == [add] + [fail] && [fail, add] == [fail] + [add];
    RunOneMore(ls, [add], fail);
    RunOneMore(ls, [fail], add);
  }

  lemma Starts(ls: seq<LeafRec>, m: Msg)
    ensures Run(ls, [m]) == Apply(ls, m) && RunVC(ls, [m]) == ApplyVC(map[], ls, m)
    ensures m.AddVCMsg? ==> Apply(ls, m) == ls
  {
    assert [] + [m] == [m];
    RunOneMore(ls, [], m);
  }

  lemma LosesOnly(c: u16)
    ensures Without(map[c := {1}], {1}) == map[]
  {
    assert {1} - {1} == {};
  }

  /** The failing input for an ID that is used again: the cluster of server 1 is gone when central announces
      one of server 2 under its ID, but where the failure comes last the ID is still taken. */
  lemma ReusedClusterIsRejected(ls: seq<LeafRec>, c: u16)
    requires ServersBelow(ls) == {1, 2} && Shape(ls)
    ensures RunVC(ls, [AddVCMsg(c, {1}), FailServerMsg(1), AddVCMsg(c, {2})]) == map[c := {2}]
    ensures RunVC(ls, [AddVCMsg(c, {1}), AddVCMsg(c, {2}), FailServerMsg(1)]) == map[]
  {
    hide ServersBelow, Apply, Run, RunVC, Without, Shape;
    var one, fail, two := AddVCMsg(c, {1}), FailServerMsg(1), AddVCMsg(c, {2});
    Starts(ls, one);
    LosesOnly(c);
    ServersAfter(ls, fail);
    assert 1 in ServersBelow(ls) && 2 in ServersBelow(Apply(ls, fail));
    assert [one, fail] == [one] + [fail] && [one, fail, two] == [one, fail] + [two];
    assert [one, two] == [one] + [two] && [one, two, fail] == [one, two] + [fail];
    RunOneMore(ls, [one], fail);
    RunOneMore(ls, [one, fail], two);
    RunOneMore(ls, [one], two);
    RunOneMore(ls, [one, two], fail);
    Starts(ls, two);
  }
}
