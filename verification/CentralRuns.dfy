/** Runs of the central controller with its registry: the requests of core/net/topologyServer_central.go
    one after the other, which of them are announced, and what the registry had to say about it. */
module CentralRuns {
  import opened Words
  import opened TopologySpec
  import opened WorkerRanges
  import opened SpineContents
  import opened SpineShape
  import opened Replication
  import opened CentralLog
  import VCRegistry

  datatype Client =
    | AddLeafReq(leaf: LeafInfo)
    | AddServerReq(server: ServerInfo, parent: u16)
    | FailLeafReq(leafID: u16)
    | FailServerReq(serverID: u16)
    | AddVCReq(clusterID: u16, servers: set<u16>, named: bool)   // does the cluster name the spine?
    | RemoveVCReq(clusterID: u16)

  /** The topology below the one spine, with what was done and announced so far, the registry, and the
      registered clusters that name the spine. The others are not announced to it. */
  datatype World = World(c: Central, reg: VCRegistry.Registry, here: set<u16>)

  /** The leaf of each server. */
  ghost function Home(ls: seq<LeafRec>): map<u16, u16> {
    map s | s in ServersBelow(ls) :: LeafOf(ls, s)
  }

  ghost function LeafOf(ls: seq<LeafRec>, s: u16): u16
    requires AnyHasServer(ls, s)
  {
    var i :| 0 <= i < |ls| && HasServer(ls[i], s);
    ls[i].id
  }

  ghost predicate InSomeVC(reg: VCRegistry.Registry, s: u16) {
    exists c :: c in reg.vcs && s in reg.vcs[c].servers
  }

  ghost predicate Created(w: World, clusterID: u16, servers: set<u16>) {
    clusterID !in w.reg.vcs && forall s | s in servers :: AnyHasServer(w.c.leaves, s)
  }

  /** The request as the log has it. A cluster that is not created or not found leads to none. */
  ghost function RequestOf(w: World, q: Client): seq<Request> {
    match q
    case AddLeafReq(leaf) => [Request(AddLeafMsg(leaf), false)]
    case AddServerReq(server, parent) => [Request(AddServerMsg(server, parent), false)]
    case FailLeafReq(id) => [Request(FailLeafMsg(id), false)]
    case FailServerReq(id) => [Request(FailServerMsg(id), InSomeVC(w.reg, id))]
    case AddVCReq(id, servers, named) => if Created(w, id, servers) then [Request(AddVCMsg(id, servers), named)] else []
    case RemoveVCReq(id) => if id in w.reg.vcs then [Request(RemoveVCMsg(id), id in w.here)] else []
  }

  ghost function ServeSome(c: Central, rs: seq<Request>): Central {
    if rs == [] then c else Serve(c, rs[0])
  }

  ghost function RegAfter(w: World, q: Client): VCRegistry.Registry {
    var home := Home(w.c.leaves);
    match q
    case AddLeafReq(_) => w.reg
    case AddServerReq(_, _) => w.reg
    case FailLeafReq(id) => if HasLeaf(w.c.leaves, id) then VCRegistry.DetachLeaf(w.reg, id, home) else w.reg
    case FailServerReq(id) => if AnyHasServer(w.c.leaves, id) then VCRegistry.DetachServer(w.reg, id, home) else w.reg
    case AddVCReq(id, servers, _) =>
      if Created(w, id, servers) then
        VCRegistry.AddVC(w.reg, id, VCRegistry.Cluster(servers, VCRegistry.Above(servers, home)))
      else w.reg
    case RemoveVCReq(id) => VCRegistry.RemoveVC(w.reg, id)
  }

  ghost function Handle(w: World, q: Client): World {
    World(ServeSome(w.c, RequestOf(w, q)), RegAfter(w, q), HereAfter(w, q))
  }

  ghost function HereAfter(w: World, q: Client): set<u16> {
    var here := if q.AddVCReq? && q.named && Created(w, q.clusterID, q.servers) then w.here + {q.clusterID} else w.here;
    set c | c in here && c in RegAfter(w, q).vcs
  }

  ghost function RunAll(w: World, qs: seq<Client>): World {
    if qs == [] then w else Handle(RunAll(w, qs[..|qs|-1]), qs[|qs|-1])
  }

  function Start(ls: seq<LeafRec>, reg: VCRegistry.Registry, here: set<u16>): World {
    World(Central(ls, [], []), reg, here)
  }

  // ---------- the log of a run ----------

  ghost function RequestsOf(w: World, qs: seq<Client>): seq<Request> {
    if qs == [] then []
    else RequestsOf(w, qs[..|qs|-1]) + RequestOf(RunAll(w, qs[..|qs|-1]), qs[|qs|-1])
  }

  lemma ServeMore(ls: seq<LeafRec>, rs: seq<Request>, more: seq<Request>)
    requires |more| <= 1
    ensures ServeAll(ls, rs + more) == ServeSome(ServeAll(ls, rs), more)
  {
    hide Serve;
    if more == [] {
      assert rs + more == rs;
    } else {
      assert (rs + more)[..|rs|] == rs;
    }
  }

  lemma HandleServes(w: World, q: Client)
    ensures |RequestOf(w, q)| <= 1 && Handle(w, q).c == ServeSome(w.c, RequestOf(w, q))
  {
  }

  /** The run is that of the log, with the registry's answers in the requests. */
  lemma {:induction false} RunIsServeAll(ls: seq<LeafRec>, reg: VCRegistry.Registry, here: set<u16>, qs: seq<Client>)
    ensures RunAll(Start(ls, reg, here), qs).c == ServeAll(ls, RequestsOf(Start(ls, reg, here), qs))
  {
    if qs != [] {
      var most, w := qs[..|qs|-1], Start(ls, reg, here);
      RunIsServeAll(ls, reg, here, most);
      var rs, r := RequestsOf(w, most), RequestOf(RunAll(w, most), qs[|qs|-1]);
      hide Handle, RequestOf, ServeAll, ServeSome;
      HandleServes(RunAll(w, most), qs[|qs|-1]);
      ServeMore(ls, rs, r);
    }
  }

  /** The server is there, no cluster has it, and it fails: nobody is told. */
  ghost predicate FailsSilentlyAt(w: World, qs: seq<Client>, k: nat, id: u16)
    requires k < |qs|
  {
    var now := RunAll(w, qs[..k]);
    qs[k] == FailServerReq(id) && AnyHasServer(now.c.leaves, id) && !InSomeVC(now.reg, id)
  }

  ghost predicate FailsSilently(w: World, qs: seq<Client>, id: u16) {
    exists k | 0 <= k < |qs| :: FailsSilentlyAt(w, qs, k, id)
  }

  lemma SilentSnoc(w: World, qs: seq<Client>, id: u16)
    requires qs != []
    ensures FailsSilently(w, qs, id) <==>
            FailsSilently(w, qs[..|qs|-1], id) || FailsSilentlyAt(w, qs, |qs| - 1, id)
  {
    var most := qs[..|qs|-1];
    forall k | 0 <= k < |most| ensures FailsSilentlyAt(w, most, k, id) <==> FailsSilentlyAt(w, qs, k, id) {
      assert most[..k] == qs[..k];
    }
  }

  lemma {:induction false} ServeKeepsChannels(c: Central, rs: seq<Request>)
    requires |rs| <= 1
    ensures var d := ServeSome(c, rs);
            && NewLeaves(c.done) <= NewLeaves(d.done) && NewServers(c.done) <= NewServers(d.done)
            && (rs == [] || !rs[0].m.FailServerMsg? ==>
                  FailedServers(d.done) == FailedServers(c.done) && FailedServers(d.log) == FailedServers(c.log))
  {
    if rs != [] {
      ChannelsStep(c.done, rs[0].m);
      ChannelsStep(c.log, rs[0].m);
    }
  }

  lemma FreshPrefix(c0: seq<LeafInfo>, nl: seq<LeafInfo>, js: seq<Join>, allNl: seq<LeafInfo>, allJs: seq<Join>)
    requires nl <= allNl && js <= allJs && FreshAdds(c0, allNl, allJs)
    ensures FreshAdds(c0, nl, js)
  {
    assert nl + allNl[|nl|..] == allNl && js + allJs[|js|..] == allJs;
    FreshBefore(c0, nl, js, allNl[|nl|..], allJs[|js|..]);
  }

  /** A server that has failed is not there any more. */
  lemma FailedAreGone(ls: seq<LeafRec>, rs: seq<Request>, id: u16)
    requires Indexed(ls)
    requires var ms := ServeAll(ls, rs).done; FreshAdds(StripAll(ls), NewLeaves(ms), NewServers(ms))
    requires id in FailedServers(ServeAll(ls, rs).done)
    ensures !AnyHasServer(ServeAll(ls, rs).leaves, id)
  {
    var c, c0 := ServeAll(ls, rs), StripAll(ls);
    CentralIsCausal(ls, rs);
    CentralIsRunOfDone(ls, rs);
    RunIsOutcome(ls, c.done);
    forall i, k | 0 <= i < |c.leaves| && 0 <= k < |c.leaves[i].servers| ensures c.leaves[i].servers[k].id != id {
      assert Strip(c.leaves[i]) == StripAll(c.leaves)[i];
      var l := OutcomeMember(c0, NewLeaves(c.done), NewServers(c.done), FailedLeaves(c.done), FailedServers(c.done), i);
      KeepMembers(EverUnder(l, NewServers(c.done)), FailedServers(c.done));
      assert Contents(c.leaves[i].servers)[k] in Contents(c.leaves[i].servers);
    }
  }

  /** What the failed-server channel lacks are exactly the servers that failed outside every cluster. */
  lemma {:induction false} SilentIff(ls: seq<LeafRec>, reg: VCRegistry.Registry, here: set<u16>, qs: seq<Client>,
                                     id: u16)
    requires Indexed(ls)
    requires var ms := RunAll(Start(ls, reg, here), qs).c.done; FreshAdds(StripAll(ls), NewLeaves(ms), NewServers(ms))
    ensures var c := RunAll(Start(ls, reg, here), qs).c;
            id in FailedServers(c.done) - FailedServers(c.log) <==> FailsSilently(Start(ls, reg, here), qs, id)
  {
    hide FreshAdds, RegAfter, Serve, StripAll, NewLeaves, ServeSome;
    if qs != [] {
      var w, most, q := Start(ls, reg, here), qs[..|qs|-1], qs[|qs|-1];
      var was := RunAll(w, most);
      ServeKeepsChannels(was.c, RequestOf(was, q));
      FreshPrefix(StripAll(ls), NewLeaves(was.c.done), NewServers(was.c.done),
                  NewLeaves(Handle(was, q).c.done), NewServers(Handle(was, q).c.done));
      SilentIff(ls, reg, here, most, id);
      SilentSnoc(w, qs, id);
      RunIsServeAll(ls, reg, here, most);
      LogChannels(ls, RequestsOf(w, most));
      if q.FailServerReq? {
        OneMoreFailure(was, q.serverID);
        if q.serverID in FailedServers(was.c.done) {
          FailedAreGone(ls, RequestsOf(w, most), q.serverID);
        }
      }
    }
  }

  lemma OneMoreFailure(w: World, id: u16)
    ensures var c, d := w.c, Handle(w, FailServerReq(id)).c;
            if !AnyHasServer(c.leaves, id) then d == c
            else
              && FailedServers(d.done) == FailedServers(c.done) + {id}
              && FailedServers(d.log) == FailedServers(c.log) + if InSomeVC(w.reg, id) then {id} else {}
  {
    ChannelsStep(w.c.done, FailServerMsg(id));
    ChannelsStep(w.c.log, FailServerMsg(id));
  }

  /** Each server that failed outside every cluster sat under a leaf that failed as well. */
  ghost predicate SilentOnesAreMoot(ls: seq<LeafRec>, reg: VCRegistry.Registry, here: set<u16>, qs: seq<Client>) {
    var c := RunAll(Start(ls, reg, here), qs).c;
    forall l, s |
      && l in Everyone(StripAll(ls), NewLeaves(c.done)) && s in EverUnder(l, NewServers(c.done))
      && FailsSilently(Start(ls, reg, here), qs, s.id) ::
      l.id in FailedLeaves(c.done)
  }

  /** The replication theorem for the controller with its registry: a replica that has received what
      was announced, in any causal merge, has central's tree and indexes if and only if no server that
      failed while no registered cluster had it is left under a surviving leaf. */
  lemma ReplicaOfRunIff(ls: seq<LeafRec>, reg: VCRegistry.Registry, here: set<u16>, qs: seq<Client>, got: seq<Msg>)
    requires Indexed(ls)
    requires var ms := RunAll(Start(ls, reg, here), qs).c.done; FreshAdds(StripAll(ls), NewLeaves(ms), NewServers(ms))
    requires Causal(StripAll(ls), got) && SameChannels(got, RunAll(Start(ls, reg, here), qs).c.log)
    ensures StripAll(Run(ls, got)) == StripAll(RunAll(Start(ls, reg, here), qs).c.leaves) <==>
            SilentOnesAreMoot(ls, reg, here, qs)
  {
    hide FreshAdds, SameChannels, RunAll, FailsSilently;
    var c := RunAll(Start(ls, reg, here), qs).c;
    RunIsServeAll(ls, reg, here, qs);
    ReplicaEqualsCentralIff(ls, RequestsOf(Start(ls, reg, here), qs), got);
    forall id {
      SilentIff(ls, reg, here, qs, id);
    }
    assert SilentOnesAreMoot(ls, reg, here, qs) <==> SilentFailuresAreMoot(StripAll(ls), c);
  }
}
