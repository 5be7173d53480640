/** What each request makes of the spine and of its leaf controllers, said about servers and clusters alone.
    VCReplication compares the two sides; here each side is compared with what it was. */
module VCRequests {
  import opened Words
  import opened VCRegistry
  import opened VCReplication
  import opened Histories

  /** The clusters have lost the servers in `gone`, and those that have no other server are gone. */
  ghost predicate Lost(was: map<u16, Cluster>, now: map<u16, Cluster>, gone: set<u16>) {
    && (forall c :: c in now <==>
          c in was && ((exists s :: s in was[c].servers && s !in gone) || was[c].servers !! gone))
    && forall c | c in now :: now[c].servers == was[c].servers - gone
  }

  /** All clusters but one are as they were. */
  ghost predicate Others(was: map<u16, Cluster>, now: map<u16, Cluster>, id: u16) {
    forall c | c != id :: (c in now <==> c in was) && (c in now ==> now[c] == was[c])
  }

  lemma WithoutIsLost(vcs: map<u16, Cluster>, gone: set<u16>, home: map<u16, u16>)
    requires Homed(vcs, home)
    ensures Lost(vcs, VCsWithout(vcs, gone, home), gone)
  {
    var now := VCsWithout(vcs, gone, home);
    forall c | c in vcs
      ensures c in now <==> (exists s :: s in vcs[c].servers && s !in gone) || vcs[c].servers !! gone
      ensures c in now ==> now[c].servers == vcs[c].servers - gone
    {
      var vc := vcs[c];
      assert vc.servers * gone == {} <==> vc.servers !! gone by {
        assert forall s :: s in vc.servers * gone <==> s in vc.servers && s in gone;
      }
      assert vc.servers - gone != {} <==> exists s :: s in vc.servers && s !in gone by {
        assert forall s :: s in vc.servers - gone <==> s in vc.servers && s !in gone;
        if vc.servers - gone != {} {
          var s :| s in vc.servers - gone;
        }
      }
    }
  }

  ghost predicate InACluster(vcs: map<u16, Cluster>, s: u16) {
    exists c :: c in vcs && s in vcs[c].servers
  }

  // ---------- servers and leaves that fail ----------

  /** A failed server is gone from the spine's topology and clusters, and from those of its leaf if it was in
      a cluster. No other leaf controller notices. */
  lemma ServerFails(s: System, serverID: u16)
    requires Inv(s)
    ensures var now := Serve(s, FailServer(serverID));
            if serverID !in s.spine.home then now == s
            else
              var l := s.spine.home[serverID];
              && now.spine.home == s.spine.home - {serverID}
              && Lost(s.spine.reg.vcs, now.spine.reg.vcs, {serverID})
              && now.leaves.Keys == s.leaves.Keys
              && (forall m | m in s.leaves && m != l :: now.leaves[m] == s.leaves[m])
              && (l in s.leaves ==>
                    if InACluster(s.spine.reg.vcs, serverID) then
                      && now.leaves[l].home == s.leaves[l].home - {serverID}
                      && Lost(s.leaves[l].reg.vcs, now.leaves[l].reg.vcs, {serverID})
                    else now.leaves[l] == s.leaves[l])
  {
    hide Exact, Homed, Project, VCsWithout, DetachServer, Lost;
    if serverID in s.spine.home {
      var l := s.spine.home[serverID];
      FailServerOk(s.spine, serverID);
      WithoutIsLost(s.spine.reg.vcs, {serverID}, s.spine.home);
      if l in s.leaves {
        assert serverID in Children(l, s.spine.home);
        FailServerOk(s.leaves[l], serverID);
        WithoutIsLost(s.leaves[l].reg.vcs, {serverID}, s.leaves[l].home);
      }
    }
  }

  /** A failed leaf is gone with its controller and all the servers below it. */
  lemma LeafFails(s: System, leafID: u16)
    requires Inv(s)
    ensures var now := Serve(s, FailLeaf(leafID));
            if leafID !in s.leaves then now == s
            else
              && (forall x :: x in now.spine.home <==> x in s.spine.home && s.spine.home[x] != leafID)
              && (forall x | x in now.spine.home :: now.spine.home[x] == s.spine.home[x])
              && Lost(s.spine.reg.vcs, now.spine.reg.vcs, set x | x in s.spine.home && s.spine.home[x] == leafID)
              && now.leaves == s.leaves - {leafID}
  {
    hide Exact, Homed, Project, VCsWithout, DetachLeaf, Lost;
    if leafID in s.leaves {
      FailLeafOk(s.spine, leafID);
      WithoutIsLost(s.spine.reg.vcs, Children(leafID, s.spine.home), s.spine.home);
    }
  }

  // ---------- servers that come ----------

  /** A new server is known to the spine and to its leaf. No cluster changes. */
  lemma ServerComes(s: System, serverID: u16, leafID: u16)
    ensures var now := Serve(s, AddServer(serverID, leafID));
            if serverID in s.spine.home || leafID !in s.leaves then now == s
            else
              && now.spine == s.spine.(home := s.spine.home[serverID := leafID])
              && now.leaves.Keys == s.leaves.Keys
              && (forall m | m in s.leaves && m != leafID :: now.leaves[m] == s.leaves[m])
              && now.leaves[leafID].reg == s.leaves[leafID].reg
              && now.leaves[leafID].home.Keys == s.leaves[leafID].home.Keys + {serverID}
  {
  }

  // ---------- clusters ----------

  /** A cluster is created if and only if its ID is free and the spine has all its servers. It has then just
      these servers at the spine, and at each leaf with a server of it those that are there. */
  lemma VCComes(s: System, id: u16, servers: set<u16>)
    requires Inv(s)
    ensures var now := Serve(s, AddVC(id, servers));
            if id in s.spine.reg.vcs || (exists x :: x in servers && x !in s.spine.home) then now == s
            else
              && now.spine.home == s.spine.home
              && id in now.spine.reg.vcs && now.spine.reg.vcs[id].servers == servers
              && Others(s.spine.reg.vcs, now.spine.reg.vcs, id)
              && now.leaves.Keys == s.leaves.Keys
              && forall l | l in s.leaves ::
                   && now.leaves[l].home == s.leaves[l].home
                   && Others(s.leaves[l].reg.vcs, now.leaves[l].reg.vcs, id)
                   && (id in now.leaves[l].reg.vcs <==> exists x :: x in servers && s.spine.home[x] == l)
                   && (id in now.leaves[l].reg.vcs ==>
                         now.leaves[l].reg.vcs[id].servers == set x | x in servers && s.spine.home[x] == l)
  {
    hide Exact, AppendAt, Homed, CtlOk, Inv, Children;
    assert servers <= s.spine.home.Keys <==> !exists x :: x in servers && x !in s.spine.home;
    if id !in s.spine.reg.vcs && servers <= s.spine.home.Keys {
      var now := Serve(s, AddVC(id, servers));
      ServeKeepsInv(s, AddVC(id, servers));
      forall l | l in s.leaves
        ensures now.leaves[l].home == s.leaves[l].home && Others(s.leaves[l].reg.vcs, now.leaves[l].reg.vcs, id)
        ensures id in now.leaves[l].reg.vcs <==> exists x :: x in servers && s.spine.home[x] == l
        ensures id in now.leaves[l].reg.vcs ==>
                  now.leaves[l].reg.vcs[id].servers == set x | x in servers && s.spine.home[x] == l
      {
        AtLeaf(s, now, id, servers, l);
      }
    }
  }

  lemma AtLeaf(s: System, now: System, id: u16, servers: set<u16>, l: u16)
    requires Inv(now) && l in now.leaves && id in now.spine.reg.vcs
    requires now.spine.reg.vcs[id].servers == servers && now.spine.home == s.spine.home
    ensures id in now.leaves[l].reg.vcs <==> exists x :: x in servers && x in s.spine.home && s.spine.home[x] == l
    ensures id in now.leaves[l].reg.vcs ==>
              now.leaves[l].reg.vcs[id].servers == set x | x in servers && x in s.spine.home && s.spine.home[x] == l
  {
    hide Exact;
    assert LeafOk(l, now.leaves[l], now.spine);
  }

  /** A removed cluster is gone everywhere, and nothing else changes. */
  lemma VCGoes(s: System, id: u16)
    requires Inv(s)
    ensures var now := Serve(s, RemoveVC(id));
            if id !in s.spine.reg.vcs then now == s
            else
              && now.spine.home == s.spine.home
              && id !in now.spine.reg.vcs && Others(s.spine.reg.vcs, now.spine.reg.vcs, id)
              && now.leaves.Keys == s.leaves.Keys
              && forall l | l in s.leaves ::
                   && now.leaves[l].home == s.leaves[l].home
                   && id !in now.leaves[l].reg.vcs && Others(s.leaves[l].reg.vcs, now.leaves[l].reg.vcs, id)
  {
    hide Exact, RemoveAt;
    if id in s.spine.reg.vcs {
      forall l | l in s.leaves && l !in s.spine.reg.vcs[id].leaves ensures id !in s.leaves[l].reg.vcs {
        assert LeafOk(l, s.leaves[l], s.spine);
      }
    }
  }

  // ---------- what a run leaves ----------

  /** The request takes the server away, alone or with its leaf. */
  ghost predicate Takes(s: System, q: Request, x: u16) {
    x in s.spine.home &&
    (q == FailServer(x) || (q.FailLeaf? && q.leafID in s.leaves && s.spine.home[x] == q.leafID))
  }

  ghost function Taken(s: System, q: Request): set<u16> {
    set x | x in s.spine.home && Takes(s, q, x)
  }

  /** The request creates the cluster. */
  ghost predicate Creates(s: System, q: Request, id: u16) {
    q.AddVC? && q.id == id && id !in s.spine.reg.vcs && forall x | x in q.servers :: x in s.spine.home
  }

  /** How one request changes one cluster of the spine. */
  ghost predicate Stepped(mid: System, q: Request, id: u16, now: map<u16, Cluster>) {
    var was := mid.spine.reg.vcs;
    if Creates(mid, q, id) then id !in was && id in now && now[id].servers == q.servers
    else
      && (id in now <==>
            && id in was && q != RemoveVC(id)
            && ((exists x :: x in was[id].servers && x !in Taken(mid, q)) || was[id].servers !! Taken(mid, q)))
      && (id in now ==> now[id].servers == was[id].servers - Taken(mid, q))
  }

  lemma ClusterStep(s: System, q: Request, id: u16)
    requires Inv(s)
    ensures Stepped(s, q, id, Serve(s, q).spine.reg.vcs)
  {
    hide Inv, Serve;
    match q
    case AddVC(c, servers) => VCComes(s, c, servers);
    case RemoveVC(c) => VCGoes(s, c);
    case AddServer(x, l) => ServerComes(s, x, l);
    case FailServer(x) =>
      ServerFails(s, x);
      assert x in s.spine.home ==> Taken(s, q) == {x};
    case FailLeaf(l) =>
      LeafFails(s, l);
      assert l in s.leaves ==> Taken(s, q) == set x | x in s.spine.home && s.spine.home[x] == l;
  }

  ghost predicate CreatedAt(s: System, qs: seq<Request>, id: u16, k: nat) {
    k < |qs| && Creates(ServeAll(s, qs[..k]), qs[k], id)
  }

  ghost predicate TakenSince(s: System, qs: seq<Request>, k: nat, x: u16) {
    exists m: nat | k <= m < |qs| :: Takes(ServeAll(s, qs[..m]), qs[m], x)
  }

  /** The servers of the cluster created by request k that have not failed since. */
  ghost function Left(s: System, qs: seq<Request>, k: nat): set<u16>
    requires k < |qs| && qs[k].AddVC?
  {
    set x | x in qs[k].servers && !TakenSince(s, qs, k + 1, x)
  }

  /** Request k created the cluster, and it was neither removed since nor has it lost its last server. */
  ghost predicate Lives(s: System, qs: seq<Request>, id: u16, k: nat) {
    && CreatedAt(s, qs, id, k)
    && (forall m | k < m < |qs| :: qs[m] != RemoveVC(id))
    && (qs[k].servers == {} || Left(s, qs, k) != {})
  }

  lemma {:induction false} RunKeepsInv(s: System, qs: seq<Request>)
    requires Inv(s)
    ensures Inv(ServeAll(s, qs))
  {
    LeavesHoldProjections(s, qs);
  }

  lemma OneMoreRequest(s: System, qs: seq<Request>, id: u16, k: nat)
    requires qs != []
    ensures var most, q := qs[..|qs|-1], qs[|qs|-1];
            var mid := ServeAll(s, most);
            && (k < |most| ==> (CreatedAt(s, qs, id, k) <==> CreatedAt(s, most, id, k)))
            && (k == |most| ==> (CreatedAt(s, qs, id, k) <==> Creates(mid, q, id)))
            && (k < |most| && qs[k].AddVC? ==> Left(s, qs, k) == Left(s, most, k) - Taken(mid, q))
            && (k == |most| && qs[k].AddVC? ==> Left(s, qs, k) == q.servers)
  {
    hide ServeAll, Creates, Takes;
    var most, q := qs[..|qs|-1], qs[|qs|-1];
    if k < |most| {
      assert qs[..k] == most[..k];
    } else if k == |most| {
      assert qs[..k] == most;
    }
    forall x ensures TakenSince(s, qs, k + 1, x) <==>
                     TakenSince(s, most, k + 1, x) || (k < |most| && Takes(ServeAll(s, most), q, x))
    {
      assert qs[..|most|] == most;
      if m: nat :| k + 1 <= m < |most| && Takes(ServeAll(s, most[..m]), most[m], x) {
        assert most[..m] == qs[..m];
        assert Takes(ServeAll(s, qs[..m]), qs[m], x);
      }
      if m: nat :| k + 1 <= m < |qs| && Takes(ServeAll(s, qs[..m]), qs[m], x) {
        if m < |most| {
          assert most[..m] == qs[..m];
          assert Takes(ServeAll(s, most[..m]), most[m], x);
        }
      }
      if k < |most| && Takes(ServeAll(s, most), q, x) {
        assert Takes(ServeAll(s, qs[..|most|]), qs[|most|], x);
      }
    }
    TakenIs(ServeAll(s, most), q);
  }

  lemma TakenIs(s: System, q: Request)
    ensures forall x :: x in Taken(s, q) <==> Takes(s, q, x)
  {
  }

  ghost predicate AsRequested(s: System, qs: seq<Request>, id: u16) {
    var now := ServeAll(s, qs).spine.reg.vcs;
    && (id in now <==> exists k: nat :: Lives(s, qs, id, k))
    && forall k: nat | Lives(s, qs, id, k) :: id in now && now[id].servers == Left(s, qs, k)
  }

  /** The clusters of the spine after any run: those that a request created, that were not removed since and
      that have servers left, each with just the servers that have not failed since, alone or with their
      leaf. A server that comes back is not in it. */
  lemma {:induction false} ClustersOfRun(s: System, qs: seq<Request>, id: u16)
    requires Inv(s) && s.spine.reg.vcs == map[]
    ensures AsRequested(s, qs, id)
  {
    if qs != [] {
      hide Inv, Serve, Creates, Takes, Taken, Lives, AsRequested;
      var most, q := qs[..|qs|-1], qs[|qs|-1];
      ClustersOfRun(s, most, id);
      RunKeepsInv(s, most);
      ClusterStep(ServeAll(s, most), q, id);
      LivesStep(s, qs, id);
    }
  }

  lemma LivesBefore(s: System, qs: seq<Request>, id: u16, k: nat)
    requires k < |qs| - 1
    ensures var most, q := qs[..|qs|-1], qs[|qs|-1];
            Lives(s, qs, id, k) <==>
              && Lives(s, most, id, k) && q != RemoveVC(id)
              && (qs[k].servers == {} || Left(s, most, k) - Taken(ServeAll(s, most), q) != {})
  {
    hide CreatedAt, Left, Taken, ServeAll;
    OneMoreRequest(s, qs, id, k);
    var most := qs[..|qs|-1];
    if CreatedAt(s, qs, id, k) {
      CreatedByAddVC(s, qs, id, k);
    }
    assert forall m | 0 <= m < |most| :: most[m] == qs[m];
    assert CreatedAt(s, qs, id, k) <==> CreatedAt(s, most, id, k);
  }

  lemma CreatedByAddVC(s: System, qs: seq<Request>, id: u16, k: nat)
    requires CreatedAt(s, qs, id, k)
    ensures k < |qs| && qs[k].AddVC?
  {
  }

  lemma LivesLast(s: System, qs: seq<Request>, id: u16)
    requires qs != []
    ensures Lives(s, qs, id, |qs| - 1) <==> Creates(ServeAll(s, qs[..|qs|-1]), qs[|qs|-1], id)
  {
    hide CreatedAt, Left, Taken, ServeAll;
    OneMoreRequest(s, qs, id, |qs| - 1);
    if CreatedAt(s, qs, id, |qs| - 1) {
      CreatedByAddVC(s, qs, id, |qs| - 1);
    }
  }

  lemma LivesFacts(s: System, qs: seq<Request>, id: u16, k: nat)
    requires Lives(s, qs, id, k)
    ensures k < |qs| && qs[k].AddVC? && (qs[k].servers == {} <==> Left(s, qs, k) == {})
  {
    CreatedByAddVC(s, qs, id, k);
    assert Left(s, qs, k) <= qs[k].servers;
  }

  lemma LivingIsThere(s: System, qs: seq<Request>, id: u16, k: nat)
    requires qs != [] && AsRequested(s, qs[..|qs|-1], id) && Lives(s, qs, id, k)
    requires Stepped(ServeAll(s, qs[..|qs|-1]), qs[|qs|-1], id, ServeAll(s, qs).spine.reg.vcs)
    ensures var now := ServeAll(s, qs).spine.reg.vcs;
            id in now && k < |qs| && qs[k].AddVC? && now[id].servers == Left(s, qs, k)
  {
    hide ServeAll, Creates, Taken, Left, Lives;
    LivesFacts(s, qs, id, k);
    OneMoreRequest(s, qs, id, k);
    if k < |qs| - 1 {
      LivesBefore(s, qs, id, k);
      LivesFacts(s, qs[..|qs|-1], id, k);
    } else {
      LivesLast(s, qs, id);
    }
  }

  lemma WhatIsThereLives(s: System, qs: seq<Request>, id: u16) returns (k: nat)
    requires qs != [] && AsRequested(s, qs[..|qs|-1], id) && id in ServeAll(s, qs).spine.reg.vcs
    requires Stepped(ServeAll(s, qs[..|qs|-1]), qs[|qs|-1], id, ServeAll(s, qs).spine.reg.vcs)
    ensures Lives(s, qs, id, k)
  {
    hide ServeAll, Creates, Taken, Left, Lives;
    var most, q := qs[..|qs|-1], qs[|qs|-1];
    if Creates(ServeAll(s, most), q, id) {
      k := |most|;
      LivesLast(s, qs, id);
    } else {
      k :| Lives(s, most, id, k);
      LivesFacts(s, most, id, k);
      LivesBefore(s, qs, id, k);
      var left, gone := Left(s, most, k), Taken(ServeAll(s, most), q);
      if left != {} {
        var x :| x in left && x !in gone;
        assert x in left - gone;
      }
    }
  }

  lemma LivesStep(s: System, qs: seq<Request>, id: u16)
    requires qs != [] && AsRequested(s, qs[..|qs|-1], id)
    requires Stepped(ServeAll(s, qs[..|qs|-1]), qs[|qs|-1], id, ServeAll(s, qs).spine.reg.vcs)
    ensures AsRequested(s, qs, id)
  {
    hide ServeAll, Left, Lives, Stepped;
    forall k: nat | Lives(s, qs, id, k) {
      LivingIsThere(s, qs, id, k);
    }
    if id in ServeAll(s, qs).spine.reg.vcs {
      var k := WhatIsThereLives(s, qs, id);
    }
  }

  // ---------- which servers a run leaves ----------

  ghost function HomeMark(s: System, q: Request, x: u16): Mark {
    if q.AddServer? && q.serverID == x && q.leafID in s.leaves then On
    else if Takes(s, q, x) then Off
    else Same
  }

  ghost function HomeMarks(s: System, qs: seq<Request>, x: u16): (marks: seq<Mark>)
    ensures |marks| == |qs|
  {
    seq(|qs|, k requires 0 <= k < |qs| => HomeMark(ServeAll(s, qs[..k]), qs[k], x))
  }

  lemma HomeStep(s: System, q: Request, x: u16)
    requires Inv(s)
    ensures x in Serve(s, q).spine.home <==> HomeMark(s, q, x) == On || (HomeMark(s, q, x) == Same && x in s.spine.home)
  {
    hide Inv, Serve;
    match q
    case AddVC(c, servers) => VCComes(s, c, servers);
    case RemoveVC(c) => VCGoes(s, c);
    case AddServer(y, l) => ServerComes(s, y, l);
    case FailServer(y) => ServerFails(s, y);
    case FailLeaf(l) => LeafFails(s, l);
  }

  /** The servers of the spine after any run: those that came below one of its leaves, or were there, and have
      not failed since, alone or with their leaf. */
  lemma {:induction false} ServersOfRun(s: System, qs: seq<Request>, x: u16)
    requires Inv(s)
    ensures x in ServeAll(s, qs).spine.home <==> LeftOn(x in s.spine.home, HomeMarks(s, qs, x))
  {
    hide Inv, Serve, HomeMark;
    if qs != [] {
      hide LeftOn;
      var most := qs[..|qs|-1];
      var mid := ServeAll(s, most);
      ServersOfRun(s, most, x);
      RunKeepsInv(s, most);
      HomeStep(mid, qs[|qs|-1], x);
      OneMore(x in s.spine.home, HomeMarks(s, most, x), HomeMark(mid, qs[|qs|-1], x));
      assert forall k | 0 <= k < |most| :: most[..k] == qs[..k];
      assert HomeMarks(s, qs, x) == HomeMarks(s, most, x) + [HomeMark(mid, qs[|qs|-1], x)];
    }
  }
}
