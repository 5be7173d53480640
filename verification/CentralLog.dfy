/** The central controller as the source of the replicated messages, and the exact condition under
    which a replica ends in the same state.

    Central tells the spines about a failed server only when detaching it from the virtual clusters
    reports success, that is, when the server belonged to some virtual cluster. Requests about clusters
    are announced to the spines that the cluster names. Every other accepted request is always announced. */
module CentralLog {
  import opened Words
  import opened TopologySpec
  import opened WorkerRanges
  import opened SpineContents
  import opened Replication

  /** A client request. `told` is what DetachServer answers when the request is FailServer, and whether the
      cluster names the spine when the request is about a cluster. */
  datatype Request = Request(m: Msg, told: bool)

  /** `done` are the accepted requests, `log` those of them that were announced to the spine. */
  datatype Central = Central(leaves: seq<LeafRec>, done: seq<Msg>, log: seq<Msg>)

  predicate Accepts(ls: seq<LeafRec>, m: Msg) {
    match m
    case AddLeafMsg(leaf) => !HasLeaf(ls, leaf.id) && !AddressTaken(ls, leaf)
    case FailLeafMsg(leafID) => HasLeaf(ls, leafID)
    case AddServerMsg(server, parent) => HasLeaf(ls, parent) && !AnyHasServer(ls, server.id)
    case FailServerMsg(serverID) => AnyHasServer(ls, serverID)
    case AddVCMsg(_, _) => true
    case RemoveVCMsg(_) => true
  }

  predicate Announces(r: Request) {
    r.m.FailServerMsg? || r.m.AddVCMsg? || r.m.RemoveVCMsg? ==> r.told
  }

  function Serve(c: Central, r: Request): Central {
    if !Accepts(c.leaves, r.m) then c
    else Central(Apply(c.leaves, r.m), c.done + [r.m], if Announces(r) then c.log + [r.m] else c.log)
  }

  function ServeAll(ls: seq<LeafRec>, rs: seq<Request>): Central {
    if rs == [] then Central(ls, [], []) else Serve(ServeAll(ls, rs[..|rs|-1]), rs[|rs|-1])
  }

  /** A rejected request changes nothing, so central's state is the run of the accepted ones. */
  lemma {:induction false} CentralIsRunOfDone(ls: seq<LeafRec>, rs: seq<Request>)
    ensures Run(ls, ServeAll(ls, rs).done) == ServeAll(ls, rs).leaves
  {
    if rs != [] {
      var c, r := ServeAll(ls, rs[..|rs|-1]), rs[|rs|-1];
      CentralIsRunOfDone(ls, rs[..|rs|-1]);
      assert (c.done + [r.m])[..|c.done|] == c.done;
    }
  }

  lemma CausalSnoc(c0: seq<LeafInfo>, ms: seq<Msg>, m: Msg)
    ensures Causal(c0, ms + [m]) <==> Causal(c0, ms) && NamesKnown(c0, ms, m)
  {
    assert (ms + [m])[..|ms|] == ms;
  }

  lemma AcceptedNamesKnown(ls: seq<LeafRec>, ms: seq<Msg>, m: Msg)
    ensures Accepts(Run(ls, ms), m) ==> NamesKnown(StripAll(ls), ms, m)
  {
    hide Run, KnowsLeaf, KnowsServer, HasLeaf, AnyHasServer;
    LiveNodesAreKnown(ls, ms);
  }

  /** Central only accepts requests that name live nodes, so its own history is causal. */
  lemma {:induction false} CentralIsCausal(ls: seq<LeafRec>, rs: seq<Request>)
    ensures Causal(StripAll(ls), ServeAll(ls, rs).done)
  {
    if rs != [] {
      hide Causal, NamesKnown, Accepts, StripAll, Apply;
      var c, r := ServeAll(ls, rs[..|rs|-1]), rs[|rs|-1];
      CausalSnoc(StripAll(ls), c.done, r.m);
      CentralIsCausal(ls, rs[..|rs|-1]);
      CentralIsRunOfDone(ls, rs[..|rs|-1]);
      AcceptedNamesKnown(ls, c.done, r.m);
    } else {
      assert Causal(StripAll(ls), []);
    }
  }

  lemma ChannelsStep(ms: seq<Msg>, m: Msg)
    ensures NewLeaves(ms + [m]) == NewLeaves(ms) + LeavesIn(m)
    ensures NewServers(ms + [m]) == NewServers(ms) + JoinsIn(m)
    ensures FailedLeaves(ms + [m]) == FailedLeaves(ms) + LeafFailuresIn(m)
    ensures FailedServers(ms + [m]) == FailedServers(ms) + ServerFailuresIn(m)
  {
    assert (ms + [m])[..|ms|] == ms;
  }

  /** All channels but the one of failed servers carry everything. */
  ghost predicate Carries(c: Central) {
    && NewLeaves(c.log) == NewLeaves(c.done)
    && NewServers(c.log) == NewServers(c.done)
    && FailedLeaves(c.log) == FailedLeaves(c.done)
    && FailedServers(c.log) <= FailedServers(c.done)
  }

  lemma ServeCarries(c: Central, r: Request)
    requires Carries(c)
    ensures Carries(Serve(c, r))
  {
    hide NewLeaves, NewServers, FailedLeaves, FailedServers, Accepts, Apply;
    ChannelsStep(c.done, r.m);
    ChannelsStep(c.log, r.m);
  }

  lemma {:induction false} LogChannels(ls: seq<LeafRec>, rs: seq<Request>)
    ensures Carries(ServeAll(ls, rs))
  {
    if rs != [] {
      hide Carries, Serve;
      LogChannels(ls, rs[..|rs|-1]);
      ServeCarries(ServeAll(ls, rs[..|rs|-1]), rs[|rs|-1]);
    }
  }

  ghost predicate TellsFailures(c: Central) {
    FailedServers(c.log) == FailedServers(c.done)
  }

  lemma ServeTellsFailures(c: Central, r: Request)
    requires TellsFailures(c) && (r.m.FailServerMsg? ==> r.told)
    ensures TellsFailures(Serve(c, r))
  {
    hide FailedServers, Accepts, Apply;
    ChannelsStep(c.done, r.m);
    ChannelsStep(c.log, r.m);
  }

  lemma {:induction false} FailuresAnnounced(ls: seq<LeafRec>, rs: seq<Request>)
    requires forall r | r in rs && r.m.FailServerMsg? :: r.told
    ensures TellsFailures(ServeAll(ls, rs))
  {
    if rs != [] {
      hide TellsFailures, Serve;
      assert rs[|rs|-1] in rs;
      FailuresAnnounced(ls, rs[..|rs|-1]);
      ServeTellsFailures(ServeAll(ls, rs[..|rs|-1]), rs[|rs|-1]);
    }
  }

  lemma KeepDiffers(cs: seq<ServerInfo>, a: set<u16>, b: set<u16>)
    requires a <= b
    ensures Keep(cs, a) == Keep(cs, b) <==> forall c | c in cs :: c.id !in b - a
  {
    KeepMembers(cs, a);
    KeepMembers(cs, b);
    if forall c | c in cs :: c.id !in b - a {
      KeepKeep(cs, a, b);
      assert a + b == b;
      forall i | 0 <= i < |Keep(cs, a)| ensures Keep(cs, a)[i].id !in b {
        assert Keep(cs, a)[i] in Keep(cs, a);
      }
      KeepAll(Keep(cs, a), b);
    } else {
      var c :| c in cs && c.id in b - a;
      assert c in Keep(cs, a) && c !in Keep(cs, b);
    }
  }

  /** Every server that failed silently sat under a leaf that failed as well. */
  ghost predicate SilentFailuresAreMoot(c0: seq<LeafInfo>, c: Central) {
    forall l, s |
      && l in Everyone(c0, NewLeaves(c.done))
      && s in EverUnder(l, NewServers(c.done))
      && s.id in FailedServers(c.done) - FailedServers(c.log) ::
      l.id in FailedLeaves(c.done)
  }

  lemma OutcomesDiffer(c0: seq<LeafInfo>, c: Central)
    requires FailedServers(c.log) <= FailedServers(c.done)
    ensures Outcome(c0, NewLeaves(c.done), NewServers(c.done), FailedLeaves(c.done), FailedServers(c.log)) ==
            Outcome(c0, NewLeaves(c.done), NewServers(c.done), FailedLeaves(c.done), FailedServers(c.done))
            <==> SilentFailuresAreMoot(c0, c)
  {
    var nl, js, fl := NewLeaves(c.done), NewServers(c.done), FailedLeaves(c.done);
    var told, all := FailedServers(c.log), FailedServers(c.done);
    var left := KeepLeaves(Everyone(c0, nl), fl);
    KeepLeavesMembers(Everyone(c0, nl), fl);
    forall i | 0 <= i < |left|
      ensures GrowAll(left, js, told)[i] == GrowAll(left, js, all)[i] <==>
              forall s | s in EverUnder(left[i], js) :: s.id !in all - told
    {
      KeepDiffers(EverUnder(left[i], js), told, all);
    }
    if SilentFailuresAreMoot(c0, c) {
      forall i | 0 <= i < |left| ensures GrowAll(left, js, told)[i] == GrowAll(left, js, all)[i] {
        assert left[i] in left;
      }
    } else {
      var l, s :| l in Everyone(c0, nl) && s in EverUnder(l, js) && s.id in all - told && l.id !in fl;
      assert l in left;
      var i :| 0 <= i < |left| && left[i] == l;
      assert GrowAll(left, js, told)[i] != GrowAll(left, js, all)[i];
    }
  }

  /** The replication theorem. Central serves any requests; `got` is any causal merge of the channels
      it announced them on. The replica ends with central's tree and indexes exactly when no server
      that failed outside every virtual cluster is left under a surviving leaf. */
  lemma ReplicaEqualsCentralIff(ls: seq<LeafRec>, rs: seq<Request>, got: seq<Msg>)
    requires Indexed(ls)
    requires var ms := ServeAll(ls, rs).done; FreshAdds(StripAll(ls), NewLeaves(ms), NewServers(ms))
    requires Causal(StripAll(ls), got) && SameChannels(got, ServeAll(ls, rs).log)
    ensures Indexed(Run(ls, got)) && Indexed(ServeAll(ls, rs).leaves)
    ensures StripAll(Run(ls, got)) == StripAll(ServeAll(ls, rs).leaves) <==>
            SilentFailuresAreMoot(StripAll(ls), ServeAll(ls, rs))
  {
    var c := ServeAll(ls, rs);
    LogChannels(ls, rs);
    CentralIsCausal(ls, rs);
    CentralIsRunOfDone(ls, rs);
    RunIsOutcome(ls, got);
    RunIsOutcome(ls, c.done);
    OutcomesDiffer(StripAll(ls), c);
  }

  /** If no leaf of central is off, the replica has central's worker ranges if and only if it has central's
      tree and none of its own leaves is off. */
  lemma ReplicaRangesIff(ls: seq<LeafRec>, rs: seq<Request>, got: seq<Msg>)
    requires SpineOk(ls)
    requires var ms := ServeAll(ls, rs).done; FreshAdds(StripAll(ls), NewLeaves(ms), NewServers(ms))
    requires Causal(StripAll(ls), got) && SameChannels(got, ServeAll(ls, rs).log)
    requires NoneOff(ls, ServeAll(ls, rs).done)
    ensures CanonAll(Run(ls, got)) == CanonAll(ServeAll(ls, rs).leaves) <==>
            SilentFailuresAreMoot(StripAll(ls), ServeAll(ls, rs)) && NoneOff(ls, got)
  {
    hide NoneOff;
    ReplicaEqualsCentralIff(ls, rs, got);
    CentralIsRunOfDone(ls, rs);
    SpineOkIff(ls, got);
    SpineOkIff(ls, ServeAll(ls, rs).done);
    if NoneOff(ls, got) {
      ContentsDetermineSpine(Run(ls, got), ServeAll(ls, rs).leaves);
    } else {
      OffShows(ls, ServeAll(ls, rs).done, got);
    }
  }

  /** In particular the replica follows whenever each failed server belonged to a virtual cluster. */
  lemma ReplicaFollowsCentral(ls: seq<LeafRec>, rs: seq<Request>, got: seq<Msg>)
    requires Indexed(ls)
    requires var ms := ServeAll(ls, rs).done; FreshAdds(StripAll(ls), NewLeaves(ms), NewServers(ms))
    requires forall r | r in rs && r.m.FailServerMsg? :: r.told
    requires Causal(StripAll(ls), got) && SameChannels(got, ServeAll(ls, rs).log)
    ensures StripAll(Run(ls, got)) == StripAll(ServeAll(ls, rs).leaves)
  {
    FailuresAnnounced(ls, rs);
    ReplicaEqualsCentralIff(ls, rs, got);
  }

  /** The failing input: a server outside every virtual cluster fails. Central drops it and announces
      nothing, and the replica keeps it. */
  lemma SilentFailureDiverges(first: ServerInfo)
    requires first.id == 1
    ensures var ls := [OneServerLeaf(first)];
            var c := ServeAll(ls, [Request(FailServerMsg(1), false)]);
            c.log == [] && |c.leaves| == 1 && c.leaves[0].servers == [] && |Run(ls, c.log)[0].servers| == 1
  {
    var l := OneServerLeaf(first);
    var ls, r := [l], Request(FailServerMsg(1), false);
    assert l.servers[0].id == 1 && HasServer(l, 1);
    OnlyThis(l, 1);
    FailOnly(l, 1);
    ContentsOfLay([first]);
    KeepAllButOne([first], 0);
    assert [r][..0] == [];
  }
}
