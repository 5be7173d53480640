/** Replication of the topology from the central controller to a spine controller.

    The central controller puts the messages about accepted requests on separate channels (new
    leaves, new servers, failed leaves, failed servers, virtual clusters) that are drained in any
    relative order. A replica therefore sees some merge of the channels. The result below does not
    compare merges step by step: it gives the replica's final contents as a function of what each
    channel carried (`Outcome`), so that the merge order drops out. */
module Replication {
  import opened Words
  import opened TopologySpec
  import opened WorkerRanges
  import opened SpineContents

  datatype Msg =
    | AddLeafMsg(leaf: LeafInfo)
    | FailLeafMsg(leafID: u16)
    | AddServerMsg(server: ServerInfo, parent: u16)
    | FailServerMsg(serverID: u16)
    | AddVCMsg(clusterID: u16, servers: set<u16>)
    | RemoveVCMsg(clusterID: u16)

  datatype Join = Join(server: ServerInfo, parent: u16)

  /** The effect of one handler on the children of the spine. */
  function Apply(ls: seq<LeafRec>, m: Msg): seq<LeafRec> {
    match m
    case AddLeafMsg(leaf) => AddLeaf(ls, leaf)
    case FailLeafMsg(leafID) => RemoveLeaf(ls, leafID)
    case AddServerMsg(server, parent) => AddServer(ls, server, parent)
    case FailServerMsg(serverID) => RemoveServer(ls, serverID)
    case AddVCMsg(_, _) => ls
    case RemoveVCMsg(_) => ls
  }

  function Run(ls: seq<LeafRec>, ms: seq<Msg>): seq<LeafRec> {
    if ms == [] then ls else Apply(Run(ls, ms[..|ms|-1]), ms[|ms|-1])
  }

  // ---------- what the channels carry ----------

  function LeavesIn(m: Msg): seq<LeafInfo> {
    if m.AddLeafMsg? then [m.leaf] else []
  }

  function JoinsIn(m: Msg): seq<Join> {
    if m.AddServerMsg? then [Join(m.server, m.parent)] else []
  }

  function LeafFailuresIn(m: Msg): set<u16> {
    if m.FailLeafMsg? then {m.leafID} else {}
  }

  function ServerFailuresIn(m: Msg): set<u16> {
    if m.FailServerMsg? then {m.serverID} else {}
  }

  function NewLeaves(ms: seq<Msg>): seq<LeafInfo> {
    if ms == [] then [] else NewLeaves(ms[..|ms|-1]) + LeavesIn(ms[|ms|-1])
  }

  function NewServers(ms: seq<Msg>): seq<Join> {
    if ms == [] then [] else NewServers(ms[..|ms|-1]) + JoinsIn(ms[|ms|-1])
  }

  function FailedLeaves(ms: seq<Msg>): set<u16> {
    if ms == [] then {} else FailedLeaves(ms[..|ms|-1]) + LeafFailuresIn(ms[|ms|-1])
  }

  function FailedServers(ms: seq<Msg>): set<u16> {
    if ms == [] then {} else FailedServers(ms[..|ms|-1]) + ServerFailuresIn(ms[|ms|-1])
  }

  // ---------- the outcome as a function of the channels ----------

  function Joining(leafID: u16, js: seq<Join>): seq<ServerInfo> {
    if js == [] then []
    else Joining(leafID, js[..|js|-1]) + (if js[|js|-1].parent == leafID then [js[|js|-1].server] else [])
  }

  function BareAll(infos: seq<LeafInfo>): (r: seq<LeafInfo>)
    ensures |r| == |infos|
  {
    seq(|infos|, i requires 0 <= i < |infos| => Bare(infos[i]))
  }

  /** All leaves there ever were. */
  function Everyone(c0: seq<LeafInfo>, nl: seq<LeafInfo>): seq<LeafInfo> {
    c0 + BareAll(nl)
  }

  /** All servers a leaf ever had. */
  function EverUnder(l: LeafInfo, js: seq<Join>): seq<ServerInfo> {
    l.servers + Joining(l.id, js)
  }

  function Grow(l: LeafInfo, js: seq<Join>, fs: set<u16>): LeafInfo {
    l.(servers := Keep(EverUnder(l, js), fs))
  }

  function GrowAll(cs: seq<LeafInfo>, js: seq<Join>, fs: set<u16>): (r: seq<LeafInfo>)
    ensures |r| == |cs|
  {
    seq(|cs|, i requires 0 <= i < |cs| => Grow(cs[i], js, fs))
  }

  /** The surviving leaves, each with its surviving servers, in order of arrival. */
  function Outcome(c0: seq<LeafInfo>, nl: seq<LeafInfo>, js: seq<Join>, fl: set<u16>, fs: set<u16>): seq<LeafInfo> {
    GrowAll(KeepLeaves(Everyone(c0, nl), fl), js, fs)
  }

  // ---------- assumptions on the messages ----------

  ghost predicate DistinctIds(cs: seq<LeafInfo>) {
    forall i, j | 0 <= i < j < |cs| :: cs[i].id != cs[j].id
  }

  /** Added nodes have IDs, and leaves addresses, that were never in use before. */
  ghost predicate FreshAdds(c0: seq<LeafInfo>, nl: seq<LeafInfo>, js: seq<Join>) {
    var all := Everyone(c0, nl);
    && DistinctIds(all)
    && (forall i, j | 0 <= i < j < |all| && |c0| <= j :: all[i].mgmt != all[j].mgmt || all[i].address != all[j].address)
    && (forall i, j | 0 <= i < j < |js| :: js[i].server.id != js[j].server.id)
    && (forall l, s, j | l in c0 && s in l.servers && j in js :: s.id != j.server.id)
  }

  /** No server has exactly one worker, and no leaf ever gets 2^16 of them. */
  ghost predicate WorkersOk(c0: seq<LeafInfo>, nl: seq<LeafInfo>, js: seq<Join>) {
    forall l | l in Everyone(c0, nl) ::
      && Total(EverUnder(l, js)) < WORD_SIZE
      && forall s | s in EverUnder(l, js) :: s.workers != 1
  }

  ghost predicate KnowsLeaf(c0: seq<LeafInfo>, nl: seq<LeafInfo>, leafID: u16) {
    exists l :: l in Everyone(c0, nl) && l.id == leafID
  }

  ghost predicate KnowsServer(c0: seq<LeafInfo>, js: seq<Join>, serverID: u16) {
    || (exists l, s :: l in c0 && s in l.servers && s.id == serverID)
    || (exists j :: j in js && j.server.id == serverID)
  }

  /** The message names only nodes that exist already or whose add was delivered before it. */
  ghost predicate NamesKnown(c0: seq<LeafInfo>, before: seq<Msg>, m: Msg) {
    match m
    case AddLeafMsg(_) => true
    case FailLeafMsg(leafID) => KnowsLeaf(c0, NewLeaves(before), leafID)
    case AddServerMsg(_, parent) => KnowsLeaf(c0, NewLeaves(before), parent)
    case FailServerMsg(serverID) => KnowsServer(c0, NewServers(before), serverID)
    case AddVCMsg(_, _) => true
    case RemoveVCMsg(_) => true
  }

  ghost predicate Causal(c0: seq<LeafInfo>, ms: seq<Msg>) {
    ms == [] || (Causal(c0, ms[..|ms|-1]) && NamesKnown(c0, ms[..|ms|-1], ms[|ms|-1]))
  }

  // ---------- consequences of the assumptions ----------

  lemma EveryoneStep(c0: seq<LeafInfo>, nl: seq<LeafInfo>, info: LeafInfo)
    ensures Everyone(c0, nl + [info]) == Everyone(c0, nl) + [Bare(info)]
  {
  }

  lemma FreshBefore(c0: seq<LeafInfo>, nl: seq<LeafInfo>, js: seq<Join>, more: seq<LeafInfo>, moreJs: seq<Join>)
    requires FreshAdds(c0, nl + more, js + moreJs)
    ensures FreshAdds(c0, nl, js)
  {
    var all, some := Everyone(c0, nl + more), Everyone(c0, nl);
    assert forall i | 0 <= i < |some| :: some[i] == all[i];
    forall j | j in js ensures j in js + moreJs { }
    forall i, j | 0 <= i < j < |js| ensures js[i].server.id != js[j].server.id {
      assert (js + moreJs)[i] == js[i] && (js + moreJs)[j] == js[j];
    }
  }

  lemma {:induction false} JoiningConcat(leafID: u16, a: seq<Join>, b: seq<Join>)
    ensures Joining(leafID, a + b) == Joining(leafID, a) + Joining(leafID, b)
  {
    if b == [] {
      assert a + b == a;
    } else {
      var c := a + b;
      assert c[..|c|-1] == a + b[..|b|-1];
      JoiningConcat(leafID, a, b[..|b|-1]);
    }
  }

  lemma {:induction false} JoiningMembers(leafID: u16, js: seq<Join>)
    ensures forall s :: s in Joining(leafID, js) <==> Join(s, leafID) in js
  {
    if js != [] {
      var m := |js| - 1;
      JoiningMembers(leafID, js[..m]);
      assert js == js[..m] + [js[m]];
    }
  }

  lemma {:induction false} NobodyJoins(leafID: u16, js: seq<Join>)
    requires forall j | j in js :: j.parent != leafID
    ensures Joining(leafID, js) == []
  {
    if js != [] {
      NobodyJoins(leafID, js[..|js|-1]);
    }
  }

  lemma EverUnderGrows(l: LeafInfo, js: seq<Join>, moreJs: seq<Join>)
    ensures Total(EverUnder(l, js)) <= Total(EverUnder(l, js + moreJs))
    ensures forall s | s in EverUnder(l, js) :: s in EverUnder(l, js + moreJs)
  {
    hide Joining, Total;
    JoiningConcat(l.id, js, moreJs);
    assert EverUnder(l, js + moreJs) == EverUnder(l, js) + Joining(l.id, moreJs);
    TotalConcat(EverUnder(l, js), Joining(l.id, moreJs));
  }

  lemma WorkersBefore(c0: seq<LeafInfo>, nl: seq<LeafInfo>, js: seq<Join>, more: seq<LeafInfo>, moreJs: seq<Join>)
    requires WorkersOk(c0, nl + more, js + moreJs)
    ensures WorkersOk(c0, nl, js)
  {
    hide Total, EverUnder;
    assert Everyone(c0, nl + more) == Everyone(c0, nl) + BareAll(more);
    forall l | l in Everyone(c0, nl)
      ensures Total(EverUnder(l, js)) < WORD_SIZE && forall s | s in EverUnder(l, js) :: s.workers != 1
    {
      assert l in Everyone(c0, nl + more);
      EverUnderGrows(l, js, moreJs);
    }
  }

  /** Only known nodes fail, and servers only join known leaves. */
  lemma {:induction false} CausalMeans(c0: seq<LeafInfo>, ms: seq<Msg>)
    requires Causal(c0, ms)
    ensures forall id | id in FailedLeaves(ms) :: KnowsLeaf(c0, NewLeaves(ms), id)
    ensures forall j | j in NewServers(ms) :: KnowsLeaf(c0, NewLeaves(ms), j.parent)
    ensures forall id | id in FailedServers(ms) :: KnowsServer(c0, NewServers(ms), id)
  {
    if ms != [] {
      var before, m := ms[..|ms|-1], ms[|ms|-1];
      CausalMeans(c0, before);
      var nl, js := NewLeaves(before), NewServers(before);
      assert Everyone(c0, NewLeaves(ms)) == Everyone(c0, nl) + BareAll(LeavesIn(m));
      assert forall id | KnowsLeaf(c0, nl, id) :: KnowsLeaf(c0, NewLeaves(ms), id);
      assert forall j | j in js :: j in NewServers(ms);
      assert forall id | KnowsServer(c0, js, id) :: KnowsServer(c0, NewServers(ms), id);
    }
  }

  // ---------- one delivery extends the outcome ----------

  lemma OutcomeOfAddLeaf(c0: seq<LeafInfo>, nl: seq<LeafInfo>, js: seq<Join>, fl: set<u16>, fs: set<u16>,
                         info: LeafInfo)
    requires info.id !in fl
    requires forall j | j in js :: j.parent != info.id
    ensures Outcome(c0, nl + [info], js, fl, fs) == Outcome(c0, nl, js, fl, fs) + [Bare(info)]
  {
    EveryoneStep(c0, nl, info);
    var all := Everyone(c0, nl);
    assert (all + [Bare(info)])[..|all|] == all;
    NobodyJoins(info.id, js);
    assert Grow(Bare(info), js, fs) == Bare(info);
  }

  lemma OutcomeOfFailLeaf(c0: seq<LeafInfo>, nl: seq<LeafInfo>, js: seq<Join>, fl: set<u16>, fs: set<u16>, id: u16)
    ensures Outcome(c0, nl, js, fl + {id}, fs) == KeepLeaves(Outcome(c0, nl, js, fl, fs), {id})
  {
    var kept := KeepLeaves(Everyone(c0, nl), fl);
    KeepLeavesTwice(Everyone(c0, nl), fl, {id});
    GrowKeepsOrder(kept, js, fs, {id});
  }

  lemma {:induction false} GrowKeepsOrder(cs: seq<LeafInfo>, js: seq<Join>, fs: set<u16>, gone: set<u16>)
    ensures GrowAll(KeepLeaves(cs, gone), js, fs) == KeepLeaves(GrowAll(cs, js, fs), gone)
  {
    if cs != [] {
      var m := |cs| - 1;
      GrowKeepsOrder(cs[..m], js, fs, gone);
      assert GrowAll(cs, js, fs)[..m] == GrowAll(cs[..m], js, fs);
    }
  }

  lemma GrowWithOneMore(l: LeafInfo, js: seq<Join>, fs: set<u16>, j: Join)
    requires j.server.id !in fs
    ensures Grow(l, js + [j], fs) ==
            if l.id == j.parent then Grow(l, js, fs).(servers := Grow(l, js, fs).servers + [j.server])
            else Grow(l, js, fs)
  {
    hide Keep;
    assert (js + [j])[..|js|] == js;
    if l.id == j.parent {
      assert EverUnder(l, js + [j]) == EverUnder(l, js) + [j.server];
      KeepConcat(EverUnder(l, js), [j.server], fs);
      KeepAll([j.server], fs);
    } else {
      assert Joining(l.id, js + [j]) == Joining(l.id, js);
    }
  }

  lemma OutcomeOfAddServer(c0: seq<LeafInfo>, nl: seq<LeafInfo>, js: seq<Join>, fl: set<u16>, fs: set<u16>, j: Join)
    requires j.server.id !in fs
    ensures Outcome(c0, nl, js + [j], fl, fs) == AppendToAll(Outcome(c0, nl, js, fl, fs), j.server, j.parent)
  {
    hide EverUnder, Keep, Joining;
    var kept := KeepLeaves(Everyone(c0, nl), fl);
    forall i | 0 <= i < |kept|
      ensures Grow(kept[i], js + [j], fs) == AppendToAll(GrowAll(kept, js, fs), j.server, j.parent)[i]
    {
      GrowWithOneMore(kept[i], js, fs, j);
    }
  }

  lemma OutcomeOfFailServer(c0: seq<LeafInfo>, nl: seq<LeafInfo>, js: seq<Join>, fl: set<u16>, fs: set<u16>, id: u16)
    ensures Outcome(c0, nl, js, fl, fs + {id}) == DropFromAll(Outcome(c0, nl, js, fl, fs), {id})
  {
    var kept := KeepLeaves(Everyone(c0, nl), fl);
    forall i | 0 <= i < |kept| ensures Grow(kept[i], js, fs + {id}) == DropFromAll(GrowAll(kept, js, fs), {id})[i] {
      KeepKeep(EverUnder(kept[i], js), fs, {id});
    }
  }

  // ---------- a fresh node is accepted ----------

  lemma OutcomeMember(c0: seq<LeafInfo>, nl: seq<LeafInfo>, js: seq<Join>, fl: set<u16>, fs: set<u16>, i: nat)
    returns (l: LeafInfo)
    requires i < |Outcome(c0, nl, js, fl, fs)|
    ensures l in Everyone(c0, nl) && l.id !in fl
    ensures Outcome(c0, nl, js, fl, fs)[i] == Grow(l, js, fs)
  {
    l := KeepLeaves(Everyone(c0, nl), fl)[i];
    KeepLeavesMembers(Everyone(c0, nl), fl);
  }

  lemma FreshLeafAccepted(ls: seq<LeafRec>, c0: seq<LeafInfo>, nl: seq<LeafInfo>, js: seq<Join>, fl: set<u16>,
                          fs: set<u16>, info: LeafInfo)
    requires StripAll(ls) == Outcome(c0, nl, js, fl, fs)
    requires FreshAdds(c0, nl + [info], js)
    ensures !HasLeaf(ls, info.id) && !AddressTaken(ls, info)
  {
    EveryoneStep(c0, nl, info);
    var all := Everyone(c0, nl + [info]);
    forall i | 0 <= i < |ls|
      ensures ls[i].id != info.id && (ls[i].mgmt != info.mgmt || ls[i].address != info.address)
    {
      assert Strip(ls[i]) == StripAll(ls)[i];
      var l := OutcomeMember(c0, nl, js, fl, fs, i);
      var k :| 0 <= k < |all| - 1 && Everyone(c0, nl)[k] == l;
      assert all[k] == l && all[|all|-1] == Bare(info);
    }
  }

  lemma FreshServerAccepted(ls: seq<LeafRec>, c0: seq<LeafInfo>, nl: seq<LeafInfo>, js: seq<Join>, fl: set<u16>,
                            fs: set<u16>, j: Join)
    requires StripAll(ls) == Outcome(c0, nl, js, fl, fs)
    requires FreshAdds(c0, nl, js + [j])
    ensures !AnyHasServer(ls, j.server.id)
  {
    forall i, k | 0 <= i < |ls| && 0 <= k < |ls[i].servers| ensures ls[i].servers[k].id != j.server.id {
      assert Strip(ls[i]) == StripAll(ls)[i];
      var l := OutcomeMember(c0, nl, js, fl, fs, i);
      var s := Contents(ls[i].servers)[k];
      KeepMembers(EverUnder(l, js), fs);
      assert s in EverUnder(l, js);
      JoiningMembers(l.id, js);
      if s in Joining(l.id, js) {
        var m :| 0 <= m < |js| && js[m] == Join(s, l.id);
        assert (js + [j])[m] == js[m] && (js + [j])[|js|] == j;
      } else {
        assert s in l.servers;
        assert l in c0;
        assert j in js + [j];
      }
    }
  }

  // ---------- the replica's final state ----------

  /** Whatever the merge of the channels, the replica ends with its leaves at their indexes and with
      the contents that the channels determine. */
  lemma {:induction false} RunIsOutcome(ls: seq<LeafRec>, ms: seq<Msg>)
    requires Indexed(ls)
    requires FreshAdds(StripAll(ls), NewLeaves(ms), NewServers(ms))
    requires Causal(StripAll(ls), ms)
    ensures Indexed(Run(ls, ms))
    ensures StripAll(Run(ls, ms)) ==
            Outcome(StripAll(ls), NewLeaves(ms), NewServers(ms), FailedLeaves(ms), FailedServers(ms))
  {
    var c0 := StripAll(ls);
    if ms == [] {
      OutcomeOfNothing(c0);
    } else {
      var before, m := ms[..|ms|-1], ms[|ms|-1];
      var nl, js, fl, fs := NewLeaves(before), NewServers(before), FailedLeaves(before), FailedServers(before);
      FreshBefore(c0, nl, js, LeavesIn(m), JoinsIn(m));
      RunIsOutcome(ls, before);
      CausalMeans(c0, before);
      OneDelivery(Run(ls, before), c0, nl, js, fl, fs, m);
    }
  }

  /** The leaf has no servers that it did not have, except perhaps `extra`. */
  ghost predicate ComesFrom(l: LeafRec, was: LeafRec, extra: set<u16>) {
    l.id == was.id && forall id | HasServer(l, id) :: HasServer(was, id) || id in extra
  }

  lemma DroppedComesFrom(l: LeafRec, gone: set<u16>)
    ensures ComesFrom(DropServers(l, gone), l, {})
  {
    hide Lay, Keep;
    var now := DropServers(l, gone);
    DropServersTiles(l, gone);
    KeepMembers(Contents(l.servers), gone);
    forall id | HasServer(now, id) ensures HasServer(l, id) {
      var k :| 0 <= k < |now.servers| && now.servers[k].id == id;
      assert Contents(now.servers)[k] in Contents(l.servers);
      var q :| 0 <= q < |l.servers| && Contents(l.servers)[q] == Contents(now.servers)[k];
      assert l.servers[q].id == id;
    }
  }

  lemma AppendedComesFrom(l: LeafRec, info: ServerInfo)
    ensures ComesFrom(AppendServer(l, info), l, {info.id})
  {
    var now := AppendServer(l, info);
    forall id | HasServer(now, id) ensures HasServer(l, id) || id == info.id {
      var k :| 0 <= k < |now.servers| && now.servers[k].id == id;
      if k < |l.servers| {
        assert l.servers[k].id == id;
      }
    }
  }

  /** No operation makes up nodes. */
  lemma LeafComesFrom(ls: seq<LeafRec>, m: Msg, i: nat)
    requires i < |Apply(ls, m)|
    ensures (m.AddLeafMsg? && i == |ls| && Apply(ls, m)[i] == FreshLeaf(m.leaf, Trunc(|ls|))) ||
            var j := if m.FailLeafMsg? then Skip(PositionOf(ls, m.leafID), i) else i;
            j < |ls| && ComesFrom(Apply(ls, m)[i], ls[j], if m.AddServerMsg? then {m.server.id} else {})
  {
    hide DropServers, AppendServer, HasServer, AnyHasServer, HasLeaf, AddressTaken;
    match m
    case AddServerMsg(server, _) => AppendedComesFrom(ls[i], server);
    case FailServerMsg(serverID) => DroppedComesFrom(ls[i], {serverID});
    case FailLeafMsg(leafID) => ReindexedComesFrom(ls, leafID, i);
    case _ =>
  }

  lemma ReindexedComesFrom(ls: seq<LeafRec>, leafID: u16, i: nat)
    requires i < |RemoveLeaf(ls, leafID)|
    ensures Skip(PositionOf(ls, leafID), i) < |ls|
    ensures ComesFrom(RemoveLeaf(ls, leafID)[i], ls[Skip(PositionOf(ls, leafID), i)], {})
  {
    var l, was := RemoveLeaf(ls, leafID)[i], ls[Skip(PositionOf(ls, leafID), i)];
    assert l.id == was.id && l.servers == was.servers;
  }

  lemma NodesFrom(ls: seq<LeafRec>, m: Msg)
    ensures forall id | HasLeaf(Apply(ls, m), id) :: HasLeaf(ls, id) || (m.AddLeafMsg? && id == m.leaf.id)
    ensures forall id | AnyHasServer(Apply(ls, m), id) :: AnyHasServer(ls, id) || (m.AddServerMsg? && id == m.server.id)
  {
    hide Apply;
    var now := Apply(ls, m);
    forall i | 0 <= i < |now|
      ensures HasLeaf(ls, now[i].id) || (m.AddLeafMsg? && now[i].id == m.leaf.id)
      ensures forall id | HasServer(now[i], id) :: AnyHasServer(ls, id) || (m.AddServerMsg? && id == m.server.id)
    {
      LeafComesFrom(ls, m, i);
    }
  }

  lemma KnownAfter(c0: seq<LeafInfo>, ms: seq<Msg>, m: Msg)
    ensures forall id | KnowsLeaf(c0, NewLeaves(ms), id) :: KnowsLeaf(c0, NewLeaves(ms) + LeavesIn(m), id)
    ensures forall id | KnowsServer(c0, NewServers(ms), id) :: KnowsServer(c0, NewServers(ms) + JoinsIn(m), id)
    ensures m.AddLeafMsg? ==> KnowsLeaf(c0, NewLeaves(ms) + LeavesIn(m), m.leaf.id)
    ensures m.AddServerMsg? ==> KnowsServer(c0, NewServers(ms) + JoinsIn(m), m.server.id)
  {
    var nl, js := NewLeaves(ms), NewServers(ms);
    assert Everyone(c0, nl + LeavesIn(m)) == Everyone(c0, nl) + BareAll(LeavesIn(m));
    assert forall j | j in js :: j in js + JoinsIn(m);
    if m.AddLeafMsg? {
      assert BareAll(LeavesIn(m))[0] in Everyone(c0, nl + LeavesIn(m));
    }
    if m.AddServerMsg? {
      assert Join(m.server, m.parent) in js + JoinsIn(m);
    }
  }

  /** What is below the spine was there at the start or has been announced. */
  lemma {:induction false} LiveNodesAreKnown(ls: seq<LeafRec>, ms: seq<Msg>)
    ensures forall id | HasLeaf(Run(ls, ms), id) :: KnowsLeaf(StripAll(ls), NewLeaves(ms), id)
    ensures forall id | AnyHasServer(Run(ls, ms), id) :: KnowsServer(StripAll(ls), NewServers(ms), id)
  {
    hide Apply, KnowsLeaf, KnowsServer;
    if ms == [] {
      StartIsKnown(ls);
    } else {
      var most, m := ms[..|ms|-1], ms[|ms|-1];
      LiveNodesAreKnown(ls, most);
      NodesFrom(Run(ls, most), m);
      KnownAfter(StripAll(ls), most, m);
    }
  }

  lemma StartIsKnown(ls: seq<LeafRec>)
    ensures forall id | HasLeaf(ls, id) :: KnowsLeaf(StripAll(ls), [], id)
    ensures forall id | AnyHasServer(ls, id) :: KnowsServer(StripAll(ls), [], id)
  {
    var c0 := StripAll(ls);
    assert Everyone(c0, []) == c0;
    forall i | 0 <= i < |ls|
      ensures KnowsLeaf(c0, [], ls[i].id)
      ensures forall k | 0 <= k < |ls[i].servers| :: KnowsServer(c0, [], ls[i].servers[k].id)
    {
      assert c0[i] in c0 && c0[i] == Strip(ls[i]);
      forall k | 0 <= k < |ls[i].servers| ensures KnowsServer(c0, [], ls[i].servers[k].id) {
        assert c0[i].servers[k] in c0[i].servers;
      }
    }
  }

  // ---------- when the worker ranges are tiled ----------

  ghost predicate HasBelow(ls: seq<LeafRec>, leafID: u16, serverID: u16) {
    exists i | 0 <= i < |ls| :: ls[i].id == leafID && HasServer(ls[i], serverID)
  }

  /** A server arrived at the leaf while its workers numbered one modulo 2^16, and no server has been
      removed from it since. */
  ghost predicate Off(ls: seq<LeafRec>, ms: seq<Msg>, leafID: u16) {
    if ms == [] then false
    else
      var now, off := Run(ls, ms[..|ms|-1]), Off(ls, ms[..|ms|-1], leafID);
      match ms[|ms|-1]
      case AddLeafMsg(leaf) => off && (leaf.id != leafID || HasLeaf(now, leafID))
      case AddServerMsg(server, parent) =>
        off || (parent == leafID && !AnyHasServer(now, server.id) && !NotOne(now, leafID))
      case FailServerMsg(serverID) => off && !HasBelow(now, leafID, serverID)
      case _ => off
  }

  ghost predicate NoneOff(ls: seq<LeafRec>, ms: seq<Msg>) {
    forall l | l in Run(ls, ms) :: !Off(ls, ms, l.id)
  }

  /** A leaf is tiled, or its servers are not. */
  ghost predicate Marked(l: LeafRec, off: bool) {
    l.first == 0 && if off then !Tiled(l.servers) else LeafTiled(l)
  }

  lemma MarkedAfterAdd(ls: seq<LeafRec>, leaf: LeafInfo, i: nat, off: bool)
    requires Indexed(ls) && i < |AddLeaf(ls, leaf)|
    requires i < |ls| ==> Marked(ls[i], off)
    ensures Marked(AddLeaf(ls, leaf)[i], off && (leaf.id != AddLeaf(ls, leaf)[i].id || HasLeaf(ls, leaf.id)))
  {
    if i < |ls| {
      assert HasLeaf(ls, ls[i].id);
    } else {
      assert LeafTiled(FreshLeaf(leaf, Trunc(|ls|))) by { assert Lay([]) == []; assert Contents([]) == []; }
    }
  }

  lemma MarkedAfterAppend(ls: seq<LeafRec>, server: ServerInfo, parent: u16, i: nat, off: bool)
    requires Indexed(ls) && i < |ls| && Marked(ls[i], off)
    ensures var l := ls[i];
            Marked(AddServer(ls, server, parent)[i],
                   off || (parent == l.id && !AnyHasServer(ls, server.id) && !NotOne(ls, l.id)))
  {
    hide Lay, AppendServer, AnyHasServer;
    var l := ls[i];
    if parent == l.id && !AnyHasServer(ls, server.id) {
      AppendedFirst(l, server);
      if off {
        UntiledStays(l, server);
      } else {
        AppendServerTilesIff(l, server);
        if Sum16(Contents(l.servers)) == 1 {
          AppendAtOneUntiles(l, server);
        }
      }
    }
  }

  lemma AppendedFirst(l: LeafRec, server: ServerInfo)
    ensures AppendServer(l, server).first == 0
  {
  }

  lemma MarkedAfterDrop(ls: seq<LeafRec>, serverID: u16, i: nat, off: bool)
    requires Indexed(ls) && i < |ls| && Marked(ls[i], off)
    ensures Marked(RemoveServer(ls, serverID)[i], off && !HasBelow(ls, ls[i].id, serverID))
  {
    if HasServer(ls[i], serverID) {
      DropServersTiles(ls[i], {serverID});
    }
  }

  lemma MarkedAfterLoss(ls: seq<LeafRec>, leafID: u16, i: nat, off: bool)
    requires Indexed(ls) && HasLeaf(ls, leafID) && i < |RemoveLeaf(ls, leafID)|
    requires var j := Skip(PositionOf(ls, leafID), i); j < |ls| && Marked(ls[j], off)
    ensures Marked(RemoveLeaf(ls, leafID)[i], off)
  {
    hide Lay;
    RemoveLeafAt(ls, leafID, i);
  }

  /** Without any assumption on the messages: a leaf of the replica is tiled if and only if no server has
      arrived at it at one worker since a server was last removed from it. */
  lemma {:induction false} TiledIffNotOff(ls: seq<LeafRec>, ms: seq<Msg>)
    requires SpineOk(ls)
    ensures Indexed(Run(ls, ms))
    ensures forall i | 0 <= i < |Run(ls, ms)| :: Marked(Run(ls, ms)[i], Off(ls, ms, Run(ls, ms)[i].id))
  {
    hide Marked, Indexed, AddLeaf, AddServer, RemoveLeaf, RemoveServer;
    if ms == [] {
      StartIsMarked(ls);
    } else {
      var most, m := ms[..|ms|-1], ms[|ms|-1];
      var was, now := Run(ls, most), Run(ls, ms);
      TiledIffNotOff(ls, most);
      StaysIndexed(was, m);
      forall i | 0 <= i < |now| ensures Marked(now[i], Off(ls, ms, now[i].id)) {
        LeafComesFrom(was, m, i);
        match m
        case AddLeafMsg(leaf) => MarkedAfterAdd(was, leaf, i, Off(ls, most, now[i].id));
        case AddServerMsg(server, parent) => MarkedAfterAppend(was, server, parent, i, Off(ls, most, now[i].id));
        case FailServerMsg(serverID) => MarkedAfterDrop(was, serverID, i, Off(ls, most, now[i].id));
        case FailLeafMsg(leafID) =>
          if HasLeaf(was, leafID) {
            MarkedAfterLoss(was, leafID, i, Off(ls, most, now[i].id));
          } else {
            NothingToRemove(was, leafID);
          }
        case _ =>
      }
    }
  }

  lemma NothingToRemove(ls: seq<LeafRec>, leafID: u16)
    requires !HasLeaf(ls, leafID)
    ensures RemoveLeaf(ls, leafID) == ls
  {
  }

  lemma StartIsMarked(ls: seq<LeafRec>)
    requires SpineOk(ls)
    ensures forall i | 0 <= i < |ls| :: Marked(ls[i], false)
  {
  }

  lemma StaysIndexed(ls: seq<LeafRec>, m: Msg)
    requires Indexed(ls)
    ensures Indexed(Apply(ls, m))
  {
    match m
    case AddLeafMsg(leaf) => AddLeafOk(ls, leaf);
    case FailLeafMsg(leafID) => RemoveLeafOk(ls, leafID);
    case AddServerMsg(server, parent) => AppendServerToOk(ls, server, parent);
    case FailServerMsg(serverID) => RemoveServerOk(ls, serverID);
    case _ =>
  }

  /** So the spine is well-numbered if and only if no leaf is off. */
  lemma SpineOkIff(ls: seq<LeafRec>, ms: seq<Msg>)
    requires SpineOk(ls)
    ensures SpineOk(Run(ls, ms)) <==> NoneOff(ls, ms)
  {
    TiledIffNotOff(ls, ms);
    forall i | 0 <= i < |Run(ls, ms)|
      ensures LeafTiled(Run(ls, ms)[i]) <==> !Off(ls, ms, Run(ls, ms)[i].id)
    {
      assert Marked(Run(ls, ms)[i], Off(ls, ms, Run(ls, ms)[i].id));
    }
  }

  lemma OutcomeOfNothing(c0: seq<LeafInfo>)
    ensures Outcome(c0, [], [], {}, {}) == c0
  {
    KeepLeavesAll(c0, {});
    assert Everyone(c0, []) == c0;
    forall i | 0 <= i < |c0| ensures Grow(c0[i], [], {}) == c0[i] {
      KeepAll(c0[i].servers, {});
      assert EverUnder(c0[i], []) == c0[i].servers;
    }
  }

  lemma OneDelivery(now: seq<LeafRec>, c0: seq<LeafInfo>, nl: seq<LeafInfo>, js: seq<Join>, fl: set<u16>, fs: set<u16>,
                    m: Msg)
    requires Indexed(now) && StripAll(now) == Outcome(c0, nl, js, fl, fs)
    requires FreshAdds(c0, nl + LeavesIn(m), js + JoinsIn(m))
    requires forall id | id in fl :: KnowsLeaf(c0, nl, id)
    requires forall j | j in js :: KnowsLeaf(c0, nl, j.parent)
    requires forall id | id in fs :: KnowsServer(c0, js, id)
    ensures Indexed(Apply(now, m))
    ensures StripAll(Apply(now, m)) ==
            Outcome(c0, nl + LeavesIn(m), js + JoinsIn(m), fl + LeafFailuresIn(m), fs + ServerFailuresIn(m))
  {
    assert nl + [] == nl && js + [] == js && fl + {} == fl && fs + {} == fs;
    match m
    case AddLeafMsg(leaf) =>
      FreshLeafAccepted(now, c0, nl, js, fl, fs, leaf);
      AddLeafOk(now, leaf);
      NewLeafUnknown(c0, nl, js, leaf);
      OutcomeOfAddLeaf(c0, nl, js, fl, fs, leaf);
    case FailLeafMsg(leafID) =>
      RemoveLeafOk(now, leafID);
      OutcomeOfFailLeaf(c0, nl, js, fl, fs, leafID);
    case AddServerMsg(server, parent) =>
      var j := Join(server, parent);
      FreshServerAccepted(now, c0, nl, js, fl, fs, j);
      AppendServerToOk(now, server, parent);
      NewServerUnknown(c0, nl, js, j);
      OutcomeOfAddServer(c0, nl, js, fl, fs, j);
      if !HasLeaf(now, parent) {
        assert AppendServerTo(now, server, parent) == now;
      }
    case FailServerMsg(serverID) =>
      RemoveServerOk(now, serverID);
      OutcomeOfFailServer(c0, nl, js, fl, fs, serverID);
    case _ =>
  }

  lemma NewLeafUnknown(c0: seq<LeafInfo>, nl: seq<LeafInfo>, js: seq<Join>, leaf: LeafInfo)
    requires FreshAdds(c0, nl + [leaf], js)
    ensures !KnowsLeaf(c0, nl, leaf.id)
  {
    EveryoneStep(c0, nl, leaf);
    var all := Everyone(c0, nl);
    forall k | 0 <= k < |all| ensures all[k].id != leaf.id {
      assert (all + [Bare(leaf)])[k] == all[k] && (all + [Bare(leaf)])[|all|] == Bare(leaf);
    }
  }

  lemma NewServerUnknown(c0: seq<LeafInfo>, nl: seq<LeafInfo>, js: seq<Join>, j: Join)
    requires FreshAdds(c0, nl, js + [j])
    ensures !KnowsServer(c0, js, j.server.id)
  {
    assert j in js + [j];
    forall k | 0 <= k < |js| ensures js[k].server.id != j.server.id {
      assert (js + [j])[k] == js[k] && (js + [j])[|js|] == j;
    }
  }

  // ---------- when no leaf ever has one worker ----------

  lemma NextRangeIsRight(ls: seq<LeafRec>, c0: seq<LeafInfo>, nl: seq<LeafInfo>, js: seq<Join>,
                         fl: set<u16>, fs: set<u16>)
    requires StripAll(ls) == Outcome(c0, nl, js, fl, fs)
    requires WorkersOk(c0, nl, js)
    ensures forall i | 0 <= i < |ls| :: Sum16(Contents(ls[i].servers)) != 1
  {
    forall i | 0 <= i < |ls| ensures Sum16(Contents(ls[i].servers)) != 1 {
      assert Strip(ls[i]) == StripAll(ls)[i];
      var l := OutcomeMember(c0, nl, js, fl, fs, i);
      KeepTotal(EverUnder(l, js), fs);
      KeepMembers(EverUnder(l, js), fs);
      SumIsNotOne(Contents(ls[i].servers));
    }
  }

  /** Without one-worker servers, and below 2^16 workers a leaf, every merge keeps the ranges tiled. */
  lemma {:induction false} NoSingleWorkers(ls: seq<LeafRec>, ms: seq<Msg>)
    requires Indexed(ls)
    requires FreshAdds(StripAll(ls), NewLeaves(ms), NewServers(ms))
    requires WorkersOk(StripAll(ls), NewLeaves(ms), NewServers(ms))
    requires Causal(StripAll(ls), ms)
    ensures forall leafID :: !Off(ls, ms, leafID)
  {
    if ms != [] {
      var c0, before, m := StripAll(ls), ms[..|ms|-1], ms[|ms|-1];
      FreshBefore(c0, NewLeaves(before), NewServers(before), LeavesIn(m), JoinsIn(m));
      WorkersBefore(c0, NewLeaves(before), NewServers(before), LeavesIn(m), JoinsIn(m));
      NoSingleWorkers(ls, before);
      RunIsOutcome(ls, before);
      NextRangeIsRight(Run(ls, before), c0, NewLeaves(before), NewServers(before),
                       FailedLeaves(before), FailedServers(before));
    }
  }

  // ---------- confluence ----------

  /** The same messages per channel. For the two failure channels even the order may differ. */
  ghost predicate SameChannels(a: seq<Msg>, b: seq<Msg>) {
    && NewLeaves(a) == NewLeaves(b)
    && NewServers(a) == NewServers(b)
    && FailedLeaves(a) == FailedLeaves(b)
    && FailedServers(a) == FailedServers(b)
  }

  /** Replicas that receive the same channels, merged in any causal order, agree on the tree and the
      leaf indexes. */
  lemma Confluence(ls: seq<LeafRec>, a: seq<Msg>, b: seq<Msg>)
    requires Indexed(ls)
    requires FreshAdds(StripAll(ls), NewLeaves(a), NewServers(a))
    requires Causal(StripAll(ls), a) && Causal(StripAll(ls), b)
    requires SameChannels(a, b)
    ensures StripAll(Run(ls, a)) == StripAll(Run(ls, b))
    ensures |Run(ls, a)| == |Run(ls, b)| && forall i | 0 <= i < |Run(ls, a)| ::
            Run(ls, a)[i].index == Run(ls, b)[i].index
  {
    RunIsOutcome(ls, a);
    RunIsOutcome(ls, b);
    assert |Run(ls, a)| == |StripAll(Run(ls, a))| == |Run(ls, b)|;
  }

  /** Leaf by leaf: where a leaf of the one replica is not off, that of the other one has its worker ranges if
      and only if it is not off either. */
  lemma LeafRangesAgreeIff(ls: seq<LeafRec>, a: seq<Msg>, b: seq<Msg>, i: nat)
    requires SpineOk(ls)
    requires FreshAdds(StripAll(ls), NewLeaves(a), NewServers(a))
    requires Causal(StripAll(ls), a) && Causal(StripAll(ls), b) && SameChannels(a, b)
    requires i < |Run(ls, a)| == |Run(ls, b)| && !Off(ls, a, Run(ls, a)[i].id)
    ensures Canon(Run(ls, a)[i]) == Canon(Run(ls, b)[i]) <==> !Off(ls, b, Run(ls, b)[i].id)
  {
    hide Tiled, FreshAdds, SameChannels;
    Confluence(ls, a, b);
    TiledIffNotOff(ls, a);
    TiledIffNotOff(ls, b);
    var x, y := Run(ls, a)[i], Run(ls, b)[i];
    assert Strip(x) == StripAll(Run(ls, a))[i] == StripAll(Run(ls, b))[i] == Strip(y);
    LeafIsLaid(x);
    if !Off(ls, b, y.id) {
      LeafIsLaid(y);
    }
  }

  /** If no leaf of the one replica is off, the two agree on the worker ranges if and only if no leaf of
      the other one is off; and if then no leaf is without workers they are equal outright. */
  lemma RangesAgreeIff(ls: seq<LeafRec>, a: seq<Msg>, b: seq<Msg>)
    requires SpineOk(ls)
    requires FreshAdds(StripAll(ls), NewLeaves(a), NewServers(a))
    requires Causal(StripAll(ls), a) && Causal(StripAll(ls), b)
    requires SameChannels(a, b) && NoneOff(ls, a)
    ensures CanonAll(Run(ls, a)) == CanonAll(Run(ls, b)) <==> NoneOff(ls, b)
    ensures NoneOff(ls, b) && (forall l | l in Run(ls, a) :: Sum16(Contents(l.servers)) != 0) ==>
              Run(ls, a) == Run(ls, b)
  {
    hide NoneOff;
    Confluence(ls, a, b);
    SpineOkIff(ls, a);
    SpineOkIff(ls, b);
    if NoneOff(ls, b) {
      ContentsDetermineSpine(Run(ls, a), Run(ls, b));
      if forall l | l in Run(ls, a) :: Sum16(Contents(l.servers)) != 0 {
        NothingToCanonize(Run(ls, a), Run(ls, b));
      }
    } else {
      OffShows(ls, a, b);
    }
  }

  lemma CanonKeepsServers(x: seq<LeafRec>, y: seq<LeafRec>)
    requires CanonAll(x) == CanonAll(y)
    ensures |x| == |y| && forall i | 0 <= i < |x| :: x[i].servers == y[i].servers
  {
    assert |x| == |CanonAll(x)| == |y|;
    forall i | 0 <= i < |x| ensures x[i].servers == y[i].servers {
      assert CanonAll(x)[i] == CanonAll(y)[i];
    }
  }

  /** Ranges that are off are not those of a tiled leaf. */
  lemma OffShows(ls: seq<LeafRec>, a: seq<Msg>, b: seq<Msg>)
    requires SpineOk(ls) && NoneOff(ls, a) && !NoneOff(ls, b)
    ensures CanonAll(Run(ls, a)) != CanonAll(Run(ls, b))
  {
    hide Tiled, CanonAll;
    var x, y := Run(ls, a), Run(ls, b);
    TiledIffNotOff(ls, b);
    SpineOkIff(ls, a);
    var l :| l in y && Off(ls, b, l.id);
    var i :| 0 <= i < |y| && y[i] == l;
    assert Marked(y[i], true);
    assert i < |x| ==> Tiled(x[i].servers);
    if CanonAll(x) == CanonAll(y) {
      CanonKeepsServers(x, y);
      assert false;
    }
  }

  lemma NothingToCanonize(a: seq<LeafRec>, b: seq<LeafRec>)
    requires CanonAll(a) == CanonAll(b) && forall l | l in a :: Sum16(Contents(l.servers)) != 0
    ensures a == b
  {
    assert |a| == |CanonAll(a)| == |b|;
    forall i | 0 <= i < |a| ensures a[i] == b[i] {
      assert a[i] in a && CanonAll(a)[i] == CanonAll(b)[i];
      StripOfCanon(b[i]);
      StripOfCanon(a[i]);
      assert Strip(a[i]).servers == Strip(b[i]).servers;
    }
  }

  // ---------- two messages for one leaf ----------

  lemma RunOfTwo(ls: seq<LeafRec>, x: Msg, y: Msg)
    ensures Run(ls, [x, y]) == Apply(Apply(ls, x), y)
  {
    assert [x, y][..1] == [x] && [x][..0] == [];
    assert Run(ls, [x]) == Apply(ls, x);
  }

  lemma FailOnly(l: LeafRec, serverID: u16)
    requires HasServer(l, serverID)
    ensures Apply([l], FailServerMsg(serverID)) == [DropServers(l, {serverID})]
  {
  }

  lemma OnlyThis(l: LeafRec, serverID: u16)
    ensures HasLeaf([l], l.id) && (AnyHasServer([l], serverID) <==> HasServer(l, serverID))
  {
    assert [l][0] == l;
  }

  lemma AddOnly(l: LeafRec, server: ServerInfo)
    requires !HasServer(l, server.id)
    ensures Apply([l], AddServerMsg(server, l.id)) == [AppendServer(l, server)]
  {
    OnlyThis(l, server.id);
  }

  // ---------- why the end-of-range of a worker-less leaf is excepted ----------

  function OneServerLeaf(first: ServerInfo): LeafRec {
    LayLeaf(LeafInfo(7, "", "", first.port, first.port, 0, [first]), 0)
  }

  lemma OneMessage(m: Msg)
    ensures NewLeaves([m]) == LeavesIn(m) && NewServers([m]) == JoinsIn(m)
    ensures FailedLeaves([m]) == LeafFailuresIn(m) && FailedServers([m]) == ServerFailuresIn(m)
  {
    assert [m][..0] == [];
  }

  lemma TwoMessages(c0: seq<LeafInfo>, x: Msg, y: Msg)
    requires NamesKnown(c0, [], x) && NamesKnown(c0, [x], y)
    ensures Causal(c0, [x, y])
    ensures NewLeaves([x, y]) == LeavesIn(x) + LeavesIn(y) && NewServers([x, y]) == JoinsIn(x) + JoinsIn(y)
    ensures FailedLeaves([x, y]) == LeafFailuresIn(x) + LeafFailuresIn(y)
    ensures FailedServers([x, y]) == ServerFailuresIn(x) + ServerFailuresIn(y)
  {
    OneMessage(x);
    assert [x][..0] == [] && [x, y][..1] == [x];
    assert Causal(c0, [x]);
  }

  /** The failure of a server of a leaf and the arrival of another one may be merged either way. */
  lemma TwoMerges(l: LeafRec, failed: u16, server: ServerInfo)
    requires HasServer(l, failed)
    ensures var c0 := StripAll([l]);
            var a := [FailServerMsg(failed), AddServerMsg(server, l.id)];
            var b := [AddServerMsg(server, l.id), FailServerMsg(failed)];
            Causal(c0, a) && Causal(c0, b) && SameChannels(a, b)
  {
    var c0, fail, add := StripAll([l]), FailServerMsg(failed), AddServerMsg(server, l.id);
    var k :| 0 <= k < |l.servers| && l.servers[k].id == failed;
    assert c0[0] == Strip(l) && c0[0].servers[k] in c0[0].servers && c0[0].servers[k].id == failed;
    OneMessage(fail);
    OneMessage(add);
    assert Everyone(c0, [])[0] == c0[0] && c0[0] in Everyone(c0, []) && c0[0].id == l.id;
    TwoMessages(c0, fail, add);
    TwoMessages(c0, add, fail);
  }

  lemma EndsDiffer(first: ServerInfo, second: ServerInfo)
    requires first.id == 1 && first.workers == 2 && second.id == 2 && second.workers == 0
    ensures AppendServer(DropServers(OneServerLeaf(first), {1}), second).last == 65535
    ensures DropServers(AppendServer(OneServerLeaf(first), second), {1}).last == 0
  {
    var leaf := OneServerLeaf(first);
    ContentsOfLay([first]);
    ContentsOfAppend(leaf, second);
    assert [first][..0] == [] && Keep([first], {1}) == [];
    assert [first, second][..1] == [first] && Keep([first, second], {1}) == [second];
    assert [second][..0] == [] && Sum16([second]) == 0;
  }

  /** Two causal merges of the same two messages, the failure of a leaf's only server and the arrival
      of a server without workers, leave the leaf's stored end at 65535 and at 0. */
  lemma MergeOrderShowsInEmptyLeaf(first: ServerInfo, second: ServerInfo)
    requires first.id == 1 && first.workers == 2 && second.id == 2 && second.workers == 0
    ensures var a := Run([OneServerLeaf(first)], [FailServerMsg(1), AddServerMsg(second, 7)]);
            var b := Run([OneServerLeaf(first)], [AddServerMsg(second, 7), FailServerMsg(1)]);
            |a| == |b| == 1 && a[0].last == 65535 && b[0].last == 0
  {
    hide Apply, Run;
    var leaf, fail, add := OneServerLeaf(first), FailServerMsg(1), AddServerMsg(second, 7);
    EndsDiffer(first, second);
    assert leaf.servers[0].id == 1 && AppendServer(leaf, second).servers[0].id == 1;
    KeepAllButOne([first], 0);
    ContentsOfLay([first]);
    assert DropServers(leaf, {1}).servers == [];
    FailOnly(leaf, 1);
    AddOnly(DropServers(leaf, {1}), second);
    AddOnly(leaf, second);
    FailOnly(AppendServer(leaf, second), 1);
    RunOfTwo([leaf], fail, add);
    RunOfTwo([leaf], add, fail);
  }

  // ---------- why IDs are not re-used and no server arrives at one worker ----------

  /** The same two messages under an ID that is used again: a server fails and one with its ID joins.
      One merge ends with the newcomer, the other without any server. */
  lemma ReusedIdDiverges(first: ServerInfo, again: ServerInfo)
    requires first.id == 1 && again.id == 1
    ensures var a := Run([OneServerLeaf(first)], [FailServerMsg(1), AddServerMsg(again, 7)]);
            var b := Run([OneServerLeaf(first)], [AddServerMsg(again, 7), FailServerMsg(1)]);
            |a| == |b| == 1 && |a[0].servers| == 1 && b[0].servers == []
  {
    var l, fail, add := OneServerLeaf(first), FailServerMsg(1), AddServerMsg(again, 7);
    assert l.servers[0].id == 1 && HasServer(l, 1);
    OnlyThis(l, 1);
    FailOnly(l, 1);
    ContentsOfLay([first]);
    assert [first][..0] == [] && Keep([first], {1}) == [];
    AddOnly(DropServers(l, {1}), again);
    RunOfTwo([l], fail, add);
    RunOfTwo([l], add, fail);
  }

  function TwoServerLeaf(one: ServerInfo, two: ServerInfo): LeafRec {
    LayLeaf(LeafInfo(7, "", "", one.port, one.port, 0, [one, two]), 0)
  }

  lemma SecondRange(one: ServerInfo, two: ServerInfo)
    requires one.workers == 1
    ensures Lay([one, two])[1].first == 1 && Sum16([one, two]) == Wrap(1 + two.workers) && Sum16([one]) == 1
  {
    assert [one][..0] == [] && [one, two][..1] == [one];
  }

  /** Servers 1 and 2 have one and two workers. Server 2 fails and server 3 joins: if the failure is
      first, server 3 is given the worker ID that server 1 has. */
  lemma MergeOrderShowsAtOne(one: ServerInfo, two: ServerInfo, new3: ServerInfo)
    requires one.id == 1 && one.workers == 1 && two.id == 2 && two.workers == 2 && new3.id == 3
    ensures var a := Run([TwoServerLeaf(one, two)], [FailServerMsg(2), AddServerMsg(new3, 7)]);
            var b := Run([TwoServerLeaf(one, two)], [AddServerMsg(new3, 7), FailServerMsg(2)]);
            && |a| == |b| == 1 && |a[0].servers| == |b[0].servers| == 2
            && a[0].servers[1].first == 0 && b[0].servers[1].first == 1
  {
    hide Apply, Run, Sum16;
    var l, fail, add := TwoServerLeaf(one, two), FailServerMsg(2), AddServerMsg(new3, 7);
    var failed, added := DropServers(l, {2}), AppendServer(l, new3);
    ContentsOfLay([one, two]);
    ContentsOfAppend(l, new3);
    assert added.servers[1].id == 2 && l.servers[1].id == 2;
    SpliceOut(one, two, new3);
    SecondRange(one, new3);
    FailOnly(l, 2);
    AddOnly(failed, new3);
    AddOnly(l, new3);
    FailOnly(added, 2);
    RunOfTwo([l], fail, add);
    RunOfTwo([l], add, fail);
  }

  lemma SpliceOut(one: ServerInfo, two: ServerInfo, new3: ServerInfo)
    requires one.id == 1 && two.id == 2 && new3.id == 3
    ensures Keep([one, two], {2}) == [one] && Keep([one, two, new3], {2}) == [one, new3]
  {
    KeepAllButOne([one, two], 1);
    KeepAllButOne([one, two, new3], 1);
  }
}
