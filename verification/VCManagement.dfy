/** The manager of virtual clusters of core/vcManager.go. Each method is proved to act on the registry
    value as the operation of VCRegistry that follows its code, so that the indexes stay exact
    inverses and no cluster ever holds a node that the topology does not. */
module VCManagement {
  import opened Words
  import opened TopologyTree
  import opened VCRegistry
  import opened VirtualClusters
  import opened VCLists

  class VCManager {
    var vcs: map<u16, VirtualCluster>
    const serverVCs: VCListMap
    const leafVCs: VCListMap
    const topology: Topology

    constructor (t: Topology)
      requires t.Valid()
      ensures topology == t && vcs == map[] && fresh(serverVCs) && fresh(leafVCs)
      ensures Valid()
    {
      hide Topology.Valid, HomeIn, Linked, Keyed;
      vcs, topology := map[], t;
      serverVCs := new VCListMap();
      leafVCs := new VCListMap();
    }

    ghost function Clusters(): map<u16, Cluster>
      reads this, vcs.Values
    {
      map c | c in vcs :: vcs[c].AsCluster()
    }

    ghost predicate Wf()
      reads this, vcs.Values, topology
      reads serverVCs, serverVCs.Buffers(), leafVCs, leafVCs.Buffers()
    {
      && (forall c | c in vcs :: vcs[c].ClusterID == c && vcs[c].HeldBy(topology))
      && Apart(serverVCs, leafVCs)
      && NamesAgree(serverVCs) && NamesAgree(leafVCs)
    }

    /** A listed cluster whose ID is registered is the registered one. */
    ghost predicate NamesAgree(m: VCListMap)
      requires m.Valid()
      reads this, m, m.Buffers()
    {
      forall k: u16, i: nat | i < |m.At(k)| && m.At(k)[i].ClusterID in vcs :: vcs[m.At(k)[i].ClusterID] == m.At(k)[i]
    }

    ghost function Reg(): Registry
      requires Wf()
      reads this, vcs.Values, topology
      reads serverVCs, serverVCs.Buffers(), leafVCs, leafVCs.Buffers()
    {
      Registry(Clusters(), serverVCs.Ids(), leafVCs.Ids())
    }

    ghost predicate Valid()
      reads this, vcs.Values, topology
      reads topology.Spines.Values, topology.Leaves.Values, topology.Servers.Values
      reads serverVCs, serverVCs.Buffers(), leafVCs, leafVCs.Buffers()
    {
      topology.Valid() && Wf() && Exact(Reg()) && Homed(Clusters(), HomeIn(topology))
    }

    method GetVC(clusterID: u16) returns (vc: VirtualCluster?)
      ensures vc == if clusterID in vcs then vcs[clusterID] else null
    {
      return if clusterID in vcs then vcs[clusterID] else null;
    }

    /** Appending an unregistered cluster's name and then registering it keeps names in agreement. */
    twostate lemma AgreeAfterAppend(new m: VCListMap, new keys: set<u16>, new vc: VirtualCluster)
      requires old(allocated(m)) && old(m.Valid()) && m.Valid() && old(NamesAgree(m))
      requires vcs == old(vcs)[vc.ClusterID := vc]
      requires forall k, i: nat | i < |old(m.At(k))| :: old(m.At(k))[i].ClusterID != vc.ClusterID
      requires forall k :: m.At(k) == if k in keys then old(m.At(k)) + [vc] else old(m.At(k))
      ensures NamesAgree(m)
    {
    }

    /** No cluster object was changed, and the topology is as it was. */
    twostate predicate OnlyIndexes()
      reads *
    {
      && topology.Servers == old(topology.Servers) && topology.Leaves == old(topology.Leaves)
      && forall c | c in old(vcs) ::
           old(vcs[c]).Servers == old(vcs[c].Servers) && old(vcs[c]).Leaves == old(vcs[c].Leaves)
    }

    lemma UnregisteredIsUnlisted(c: u16)
      requires Wf() && Exact(Reg()) && c !in vcs
      ensures forall k, i: nat | i < |serverVCs.At(k)| :: serverVCs.At(k)[i].ClusterID != c
      ensures forall k, i: nat | i < |leafVCs.At(k)| :: leafVCs.At(k)[i].ClusterID != c
    {
      forall k, i: nat | i < |serverVCs.At(k)| ensures serverVCs.At(k)[i].ClusterID != c {
        UsersOfServer(Reg(), k);
        assert c !in ListAt(serverVCs.Ids(), k) && ListAt(serverVCs.Ids(), k)[i] == serverVCs.At(k)[i].ClusterID;
      }
      forall k, i: nat | i < |leafVCs.At(k)| ensures leafVCs.At(k)[i].ClusterID != c {
        UsersOfLeaf(Reg(), k);
        assert c !in ListAt(leafVCs.Ids(), k) && ListAt(leafVCs.Ids(), k)[i] == leafVCs.At(k)[i].ClusterID;
      }
    }

    /** The structure after AddVC. */
    twostate lemma AfterAdd(new vc: VirtualCluster)
      requires old(Wf()) && OnlyIndexes() && Apart(serverVCs, leafVCs)
      requires vcs == old(vcs)[vc.ClusterID := vc] && vc.ClusterID !in old(vcs) && vc.HeldBy(topology)
      requires NamesAgree(serverVCs) && NamesAgree(leafVCs)
      requires serverVCs.Ids() == AppendAt(old(serverVCs.Ids()), vc.Servers.Keys, vc.ClusterID)
      requires leafVCs.Ids() == AppendAt(old(leafVCs.Ids()), vc.Leaves.Keys, vc.ClusterID)
      ensures Wf() && Reg() == VCRegistry.AddVC(old(Reg()), vc.ClusterID, vc.AsCluster())
    {
      forall c | c in vcs ensures vcs[c].ClusterID == c && vcs[c].HeldBy(topology) {
        if c != vc.ClusterID {
          assert old(vcs[c].HeldBy(topology));
        }
      }
      assert Clusters() == old(Clusters())[vc.ClusterID := vc.AsCluster()];
    }

    /** A cluster as NewVC makes it: members from this topology, and the leaves those above the servers. */
    ghost predicate Fits(vc: VirtualCluster)
      reads vc, topology, topology.Servers.Values
    {
      && vc.HeldBy(topology)
      && vc.Servers.Keys <= HomeIn(topology).Keys && vc.Leaves.Keys == Above(vc.Servers.Keys, HomeIn(topology))
    }

    /** The part of AddVC after its check. */
    method Register(vc: VirtualCluster)
      requires Wf() && Exact(Reg()) && vc.ClusterID !in vcs && vc.HeldBy(topology)
      modifies this`vcs, serverVCs, serverVCs.Buffers(), leafVCs, leafVCs.Buffers()
      ensures Wf() && vcs == old(vcs)[vc.ClusterID := vc]
      ensures Reg() == VCRegistry.AddVC(old(Reg()), vc.ClusterID, vc.AsCluster())
    {
      hide Linked, Keyed, NamesAgree, VCListMap.Valid, VCListMap.Ids, VCListMap.At, VCListMap.Buffers,
        VirtualCluster.AsCluster, VCManager.Clusters;
      UnregisteredIsUnlisted(vc.ClusterID);
      vcs := vcs[vc.ClusterID := vc];
      AppendBoth(serverVCs, vc.Servers.Keys, leafVCs, vc.Leaves.Keys, vc);
      AgreeAfterAppend(serverVCs, vc.Servers.Keys, vc);
      AgreeAfterAppend(leafVCs, vc.Leaves.Keys, vc);
      AfterAdd(vc);
    }

    method RegisterNew(vc: VirtualCluster)
      requires Valid() && Fits(vc) && vc.ClusterID !in vcs
      modifies this`vcs, serverVCs, serverVCs.Buffers(), leafVCs, leafVCs.Buffers()
      ensures Valid() && vcs == old(vcs)[vc.ClusterID := vc]
      ensures Reg() == VCRegistry.AddVC(old(Reg()), vc.ClusterID, vc.AsCluster())
    {
      hide Topology.Valid, Linked, Keyed, NamesAgree, Apart, Exact, Homed, HomeIn, VCManager.Wf, VCListMap.Valid,
        VCListMap.Ids, VCListMap.At;
      AddVCKeepsExact(Reg(), vc.ClusterID, vc.AsCluster());
      HomedWithOneMore(Clusters(), vc.ClusterID, vc.AsCluster(), HomeIn(topology));
      Register(vc);
      assert topology.Valid();
      assert HomeIn(topology) == old(HomeIn(topology));
    }

    method AddVC(vc: VirtualCluster) returns (ok: bool)
      requires Valid() && Fits(vc)
      modifies this`vcs, serverVCs, serverVCs.Buffers(), leafVCs, leafVCs.Buffers()
      ensures ok <==> vc.ClusterID !in old(vcs)
      ensures Valid() && vcs == if ok then old(vcs)[vc.ClusterID := vc] else old(vcs)
      ensures Reg() == VCRegistry.AddVC(old(Reg()), vc.ClusterID, vc.AsCluster())
    {
      if vc.ClusterID in vcs {
        return false;
      }
      RegisterNew(vc);
      return true;
    }

    // ---------- RemoveVC ----------

    twostate lemma AgreeAfterRemove(new m: VCListMap, new keys: set<u16>, new c: u16)
      requires old(allocated(m)) && old(m.Valid()) && m.Valid() && old(NamesAgree(m))
      requires forall d | d in vcs :: d in old(vcs) && vcs[d] == old(vcs)[d]
      requires forall k :: m.At(k) == if k in keys then Spliced(old(m.At(k)), c) else old(m.At(k))
      ensures NamesAgree(m)
    {
      forall k: u16, i: nat | i < |m.At(k)| && m.At(k)[i].ClusterID in vcs
        ensures vcs[m.At(k)[i].ClusterID] == m.At(k)[i]
      {
        var was := old(m.At(k));
        SplicedIsPart(was, c);
        var j :| 0 <= j < |was| && was[j] == m.At(k)[i];
      }
    }

    /** The structure after RemoveVC. */
    twostate lemma AfterRemove(new vc: VirtualCluster)
      requires old(Wf()) && OnlyIndexes() && Apart(serverVCs, leafVCs)
      requires vc.ClusterID in old(vcs) && old(vcs)[vc.ClusterID] == vc && vcs == old(vcs) - {vc.ClusterID}
      requires NamesAgree(serverVCs) && NamesAgree(leafVCs)
      requires serverVCs.Ids() == RemoveAt(old(serverVCs.Ids()), vc.Servers.Keys, vc.ClusterID)
      requires leafVCs.Ids() == RemoveAt(old(leafVCs.Ids()), vc.Leaves.Keys, vc.ClusterID)
      ensures Wf() && Reg() == VCRegistry.RemoveVC(old(Reg()), vc.ClusterID)
    {
      forall c | c in vcs ensures vcs[c].ClusterID == c && vcs[c].HeldBy(topology) {
        assert old(vcs[c].HeldBy(topology));
      }
      assert Clusters() == old(Clusters()) - {vc.ClusterID};
    }

    /** The part of RemoveVC after its check. Lists of nodes outside the cluster are not touched. */
    method Unregister(vc: VirtualCluster)
      requires Wf() && vc.ClusterID in vcs && vcs[vc.ClusterID] == vc
      modifies this`vcs, serverVCs, serverVCs.Buffers(), leafVCs, leafVCs.Buffers()
      ensures Wf() && vcs == old(vcs) - {vc.ClusterID}
      ensures Reg() == VCRegistry.RemoveVC(old(Reg()), vc.ClusterID)
      ensures serverVCs.Buffers() == old(serverVCs.Buffers()) && leafVCs.Buffers() == old(leafVCs.Buffers())
      ensures ListsKept(serverVCs, vc.Servers.Keys) && ListsKept(leafVCs, vc.Leaves.Keys)
      ensures (old(topology.Valid()) ==> topology.Valid()) && HomeIn(topology) == old(HomeIn(topology))
    {
      hide Topology.Valid, HomeIn, Linked, Keyed, NamesAgree, VCListMap.Valid, VCListMap.Ids, VCListMap.At, Spliced,
        RemoveAt, VCListMap.Buffers, VCRegistry.RemoveVC;
      vcs := vcs - {vc.ClusterID};
      RemoveBoth(serverVCs, vc.Servers.Keys, leafVCs, vc.Leaves.Keys, vc);
      assert old(topology.Valid()) ==> topology.Valid();
      assert HomeIn(topology) == old(HomeIn(topology));
      AgreeAfterRemove(serverVCs, vc.Servers.Keys, vc.ClusterID);
      AgreeAfterRemove(leafVCs, vc.Leaves.Keys, vc.ClusterID);
      AfterRemove(vc);
    }

    /** The slices outside `keys` are the same slices, with the same contents. */
    twostate predicate ListsKept(m: VCListMap, new keys: set<u16>)
      requires old(m.Valid()) && m.Valid()
      reads m, m.Buffers()
    {
      && m.internal.Keys == old(m.internal.Keys)
      && (forall k | k in m.internal && k !in keys :: m.internal[k] == old(m.internal[k]))
      && (forall k | k !in keys :: m.At(k) == old(m.At(k)))
    }

    twostate lemma Untouched()
      requires old(Wf()) && Wf()
      requires serverVCs.internal == old(serverVCs.internal) && leafVCs.internal == old(leafVCs.internal)
      requires forall b | b in serverVCs.Buffers() + leafVCs.Buffers() :: old(allocated(b)) && b[..] == old(b[..])
      ensures ListsKept(serverVCs, {}) && ListsKept(leafVCs, {})
    {
      assert forall b | b in serverVCs.Buffers() :: b in serverVCs.Buffers() + leafVCs.Buffers();
      assert forall b | b in leafVCs.Buffers() :: b in serverVCs.Buffers() + leafVCs.Buffers();
    }

    method RemoveVC(vc: VirtualCluster) returns (ok: bool)
      requires Wf() && (vc.ClusterID in vcs ==> vcs[vc.ClusterID] == vc)
      modifies this`vcs, serverVCs, serverVCs.Buffers(), leafVCs, leafVCs.Buffers()
      ensures ok <==> vc.ClusterID in old(vcs)
      ensures Wf() && vcs == old(vcs) - {vc.ClusterID}
      ensures Reg() == VCRegistry.RemoveVC(old(Reg()), vc.ClusterID)
      ensures serverVCs.Buffers() == old(serverVCs.Buffers()) && leafVCs.Buffers() == old(leafVCs.Buffers())
      ensures ListsKept(serverVCs, vc.Servers.Keys) && ListsKept(leafVCs, vc.Leaves.Keys)
      ensures (old(topology.Valid()) ==> topology.Valid()) && HomeIn(topology) == old(HomeIn(topology))
    {
      if vc.ClusterID !in vcs {
        return false;
      }
      Unregister(vc);
      return true;
    }

    // ---------- DetachServer ----------

    /** One registered cluster lost members; nothing else happened to the clusters. */
    twostate predicate OnlyCluster(new c: u16)
      reads *
    {
      && vcs == old(vcs) && c in vcs && topology.Servers == old(topology.Servers) &&
        topology.Leaves == old(topology.Leaves)
      && vcs[c].Servers == old(vcs[c].Servers) - (old(vcs[c].Servers.Keys) - vcs[c].Servers.Keys)
      && vcs[c].Leaves == old(vcs[c].Leaves) - (old(vcs[c].Leaves.Keys) - vcs[c].Leaves.Keys)
      && forall d | d in vcs && d != c :: vcs[d].Servers == old(vcs[d].Servers) && vcs[d].Leaves == old(vcs[d].Leaves)
    }

    twostate lemma AfterLoss(new c: u16)
      requires old(Wf()) && OnlyCluster(c) && Apart(serverVCs, leafVCs)
      requires NamesAgree(serverVCs) && NamesAgree(leafVCs)
      ensures Wf() && Clusters() == old(Clusters())[c := vcs[c].AsCluster()]
    {
      forall d | d in vcs ensures vcs[d].ClusterID == d && vcs[d].HeldBy(topology) {
        assert old(vcs[d].HeldBy(topology));
      }
    }

    /** The cluster gives up the server. */
    method TakeServer(vc: VirtualCluster, serverID: u16, ghost home: map<u16, u16>)
      returns (detached: bool, losesLeaf: bool)
      requires topology.Valid() && Wf() && vc.ClusterID in vcs && vcs[vc.ClusterID] == vc
      requires home == HomeIn(topology)
      modifies vc`Servers
      ensures detached <==> serverID in old(vc.Servers)
      ensures losesLeaf <==> LosesLeaf(old(vc.AsCluster()), serverID, home)
      ensures Wf() && vc.Servers == old(vc.Servers) - {serverID}
      ensures Reg() == old(Reg()).(vcs := old(Clusters())[vc.ClusterID := vc.AsCluster()])
    {
      hide Linked, Keyed, ChildOk, ChildrenHeld, ParentOk, LosesLeaf, VCListMap.Ids, VCListMap.At;
      detached, losesLeaf := vc.DetachServer(serverID, topology, home);
      AfterLoss(vc.ClusterID);
    }

    /** The cluster gives up the leaf, and is taken off the leaf's list. */
    method DropLeaf(vc: VirtualCluster, leafID: u16)
      requires Wf() && vc.ClusterID in vcs && vcs[vc.ClusterID] == vc
      modifies vc`Leaves, leafVCs, leafVCs.Buffers()
      ensures Wf() && vc.Leaves == old(vc.Leaves) - {leafID}
      ensures Reg() == old(Reg()).(vcs := old(Clusters())[vc.ClusterID := vc.AsCluster()],
                                   leafVCs := RemoveAt(old(leafVCs.Ids()), {leafID}, vc.ClusterID))
      ensures leafVCs.Buffers() == old(leafVCs.Buffers())
    {
      hide Linked, Keyed, VCListMap.Ids, Spliced, RemoveAt, VCManager.Clusters, VCListMap.Valid, VCListMap.At,
        NamesAgree, VirtualCluster.HeldBy, VCManager.OnlyCluster;
      vc.Leaves := vc.Leaves - {leafID};
      leafVCs.RemoveFromVCList(leafID, vc);
      leafVCs.RemovedIds({leafID}, vc.ClusterID);
      AgreeAfterRemove(leafVCs, {leafID}, vc.ClusterID);
      AfterLoss(vc.ClusterID);
    }

    lemma ParentAtHome(serverID: u16)
      ensures serverID in HomeIn(topology) ==>
                serverID in topology.Servers && topology.Servers[serverID].Parent != null &&
                HomeIn(topology)[serverID] == topology.Servers[serverID].Parent.ID
    {
    }

    /** The loop body of DetachServer before the test for an empty cluster. */
    method LoseServer(vc: VirtualCluster, serverID: u16, ghost home: map<u16, u16>) returns (detached: bool)
      requires topology.Valid() && Wf() && vc.ClusterID in vcs && vcs[vc.ClusterID] == vc
      requires home == HomeIn(topology)
      modifies vc`Servers, vc`Leaves, leafVCs, leafVCs.Buffers()
      ensures detached <==> serverID in old(vc.Servers)
      ensures Wf() && vc.Servers == old(vc.Servers) - {serverID}
      ensures Reg() == VCRegistry.LoseServer(old(Reg()), vc.ClusterID, serverID, home)
      ensures leafVCs.Buffers() == old(leafVCs.Buffers())
      ensures topology.Valid() && HomeIn(topology) == home
    {
      hide Topology.Valid, HomeIn, Linked, Keyed, NamesAgree, VCListMap.Ids, VCListMap.At, VCListMap.Valid,
        VCManager.Wf, RemoveAt;
      ghost var r, was := Reg(), vc.AsCluster();
      ParentAtHome(serverID);
      var detachLeaf;
      detached, detachLeaf := TakeServer(vc, serverID, home);
      assert topology.Valid();
      assert HomeIn(topology) == home;
      ghost var between, less := Reg(), vc.AsCluster();
      if detachLeaf {
        var server := topology.Servers[serverID];
        if server.Parent != null {
          DropLeaf(vc, server.Parent.ID);
          assert topology.Valid();
          assert HomeIn(topology) == home;
          assert vc.AsCluster() == Cluster(less.servers, less.leaves - {home[serverID]});
        }
      }
      LostServer(r, was, between, Reg(), vc.ClusterID, serverID, home);
    }

    /** The clusters that are registered were so before. */
    twostate predicate Shrinks()
      reads this
    {
      forall c | c in vcs :: c in old(vcs) && vcs[c] == old(vcs)[c]
    }

    /** The end of the loop bodies of the detach operations. A cluster that is removed here is on no
        list any more, so the lists stay as they are. */
    method RemoveEmpty(vc: VirtualCluster, ghost home: map<u16, u16>)
      requires topology.Valid() && Wf() && vc.ClusterID in vcs && vcs[vc.ClusterID] == vc
      requires home == HomeIn(topology)
      modifies this`vcs, serverVCs, serverVCs.Buffers(), leafVCs, leafVCs.Buffers()
      ensures Wf() && Shrinks()
      ensures Reg() == RemoveIfEmpty(old(Reg()), vc.ClusterID)
      ensures serverVCs.Buffers() == old(serverVCs.Buffers()) && leafVCs.Buffers() == old(leafVCs.Buffers())
      ensures ListsKept(serverVCs, if vc.Servers == map[] then vc.Servers.Keys else {})
      ensures ListsKept(leafVCs, if vc.Servers == map[] then vc.Leaves.Keys else {})
      ensures topology.Valid() && HomeIn(topology) == home
    {
      hide Topology.Valid, Linked, Keyed, NamesAgree, Apart, Exact, Homed, HomeIn, VCListMap.Ids, VCListMap.At,
        VCListMap.Valid, VCManager.Wf, VCRegistry.RemoveVC, VCManager.ListsKept;
      assert Reg().vcs[vc.ClusterID] == vc.AsCluster();
      if |vc.Servers| == 0 {
        var ok := RemoveVC(vc);
      } else {
        Untouched();
      }
    }

    /** The loop body of DetachServer. The lists of servers are left alone. */
    method DetachServerFrom(vc: VirtualCluster, serverID: u16, ghost home: map<u16, u16>) returns (detached: bool)
      requires topology.Valid() && Wf() && vc.ClusterID in vcs && vcs[vc.ClusterID] == vc
      requires home == HomeIn(topology)
      modifies this`vcs, vc`Servers, vc`Leaves, serverVCs, serverVCs.Buffers(), leafVCs, leafVCs.Buffers()
      ensures detached <==> serverID in old(vc.Servers)
      ensures Wf() && Shrinks()
      ensures Reg() == VCRegistry.DetachServerFrom(old(Reg()), vc.ClusterID, serverID, home)
      ensures serverVCs.Buffers() == old(serverVCs.Buffers()) && leafVCs.Buffers() == old(leafVCs.Buffers())
      ensures ListsKept(serverVCs, {})
      ensures topology.Valid() && HomeIn(topology) == home
    {
      hide Topology.Valid, HomeIn, Linked, Keyed, NamesAgree, VCListMap.Ids, VCListMap.At, VCListMap.Valid,
        VCRegistry.LoseServer, VirtualCluster.HeldBy;
      detached := LoseServer(vc, serverID, home);
      assert forall k :: serverVCs.At(k) == old(serverVCs.At(k));
      RemoveEmpty(vc, home);
    }
    /** Position i of a server's list, while the walk is there: what the slice holds is the registered
        cluster of that ID. */
    lemma OnList(m: VCListMap, k: u16, i: nat)
      requires Wf() && (m == serverVCs || m == leafVCs) && k in m.internal && i < m.internal[k].len
      requires m.internal[k].buf[i].ClusterID in vcs
      ensures m.At(k)[i] == m.internal[k].buf[i] && i < |m.Ids()[k]| && m.Ids()[k][i] == m.internal[k].buf[i].ClusterID
      ensures vcs[m.internal[k].buf[i].ClusterID] == m.internal[k].buf[i]
    {
      assert m.At(k)[i] == m.internal[k].buf[i];
    }

    lemma MeetsOnServerList(r: Registry, s: u16, home: map<u16, u16>, i: nat)
      requires Wf() && s in serverVCs.internal && i < serverVCs.internal[s].len
      requires Exact(r) && Homed(r.vcs, home) && s in r.serverVCs && |r.serverVCs[s]| == serverVCs.internal[s].len
      requires Reg() == DetachServerFromAll(r, r.serverVCs[s][..i], s, home)
      ensures var vc := serverVCs.internal[s].buf[i];
              && vc.ClusterID in vcs && vcs[vc.ClusterID] == vc && s in vc.Servers
              && DetachServerFromAll(r, r.serverVCs[s][..i+1], s, home) ==
                 VCRegistry.DetachServerFrom(Reg(), vc.ClusterID, s, home)
    {
      ServerWalkMeets(r, s, home, i);
      var vc := serverVCs.internal[s].buf[i];
      assert vc.ClusterID == r.serverVCs[s][i] by { assert serverVCs.Ids()[s][i] == serverVCs.At(s)[i].ClusterID; }
      OnList(serverVCs, s, i);
      assert Reg().vcs[vc.ClusterID] == vc.AsCluster();
    }

    /** The loop of DetachServer. It walks the slice it found at the start, reading the buffer as it is
        when it gets there. */
    method WalkServerList(vcList: Slice, serverID: u16, ghost home: map<u16, u16>) returns (detached: bool)
      requires Valid() && serverID in Reg().serverVCs && serverID in serverVCs.internal &&
               vcList == serverVCs.internal[serverID]
      requires |Reg().serverVCs[serverID]| == vcList.len && home == HomeIn(topology)
      modifies this`vcs, vcs.Values`Servers, vcs.Values`Leaves
      modifies serverVCs, serverVCs.Buffers(), leafVCs, leafVCs.Buffers()
      ensures Wf() && Shrinks()
      ensures Reg() == DetachServerFromAll(old(Reg()), old(Reg()).serverVCs[serverID], serverID, home)
      ensures serverVCs.Buffers() == old(serverVCs.Buffers()) && leafVCs.Buffers() == old(leafVCs.Buffers())
      ensures detached <==> vcList.len > 0
      ensures topology.Valid() && HomeIn(topology) == home
    {
      hide Linked, Keyed, NamesAgree, Exact, Homed, Topology.Valid, HomeIn, VCListMap.Ids, VCListMap.At;
      ghost var r := Reg();
      ghost var cs := r.serverVCs[serverID];
      detached := false;
      var firstDetach := false;
      for i := 0 to vcList.len
        invariant Wf() && Shrinks() && topology.Valid() && HomeIn(topology) == home
        invariant serverVCs.Buffers() == old(serverVCs.Buffers()) && leafVCs.Buffers() == old(leafVCs.Buffers())
        invariant serverID in serverVCs.internal && serverVCs.internal[serverID] == vcList
        invariant |cs| == vcList.len && Reg() == DetachServerFromAll(r, cs[..i], serverID, home)
        invariant firstDetach <==> i > 0
        invariant detached <==> i > 0
      {
        MeetsOnServerList(r, serverID, home, i);
        var vc := vcList.buf[i];
        var serverDetached := DetachServerFrom(vc, serverID, home);
        if !firstDetach {
          detached := serverDetached;
          firstDetach := true;
        } else {
          detached := detached && serverDetached;
        }
      }
      assert cs[..vcList.len] == cs;
    }
    /** Takes a key off the index of servers. */
    method ForgetServer(serverID: u16, ghost home: map<u16, u16>)
      requires topology.Valid() && Wf() && home == HomeIn(topology)
      modifies serverVCs
      ensures Wf() && serverVCs.Buffers() <= old(serverVCs.Buffers())
      ensures Reg() == old(Reg()).(serverVCs := old(Reg()).serverVCs - {serverID})
      ensures topology.Valid() && HomeIn(topology) == home
    {
      hide Topology.Valid, HomeIn, Linked, Keyed, VCListMap.Ids;
      serverVCs.DeleteVCList(serverID);
      assert topology.Valid();
      assert HomeIn(topology) == home;
    }

    lemma HasUsers(serverID: u16)
      requires Valid()
      ensures serverID in serverVCs.internal <==> serverID in Reg().serverVCs
      ensures serverID in serverVCs.internal ==> |Reg().serverVCs[serverID]| == serverVCs.internal[serverID].len
      ensures (serverID in serverVCs.internal && serverVCs.internal[serverID].len > 0) <==>
              exists c :: c in vcs && serverID in vcs[c].Servers
    {
      UsersOfServer(Reg(), serverID);
      var cs := ListAt(Reg().serverVCs, serverID);
      if serverID in serverVCs.internal && serverVCs.internal[serverID].len > 0 {
        assert cs[0] in cs;
        assert Reg().vcs[cs[0]] == vcs[cs[0]].AsCluster();
      }
      if c :| c in vcs && serverID in vcs[c].Servers {
        assert Reg().vcs[c] == vcs[c].AsCluster();
      }
    }

    /** A server leaves every cluster. True exactly if some cluster had it. */
    method DetachServer(serverID: u16) returns (r: bool)
      requires Valid()
      modifies this`vcs, vcs.Values`Servers, vcs.Values`Leaves
      modifies serverVCs, serverVCs.Buffers(), leafVCs, leafVCs.Buffers()
      ensures Valid() && Shrinks()
      ensures Reg() == VCRegistry.DetachServer(old(Reg()), serverID, old(HomeIn(topology)))
      ensures HomeIn(topology) == old(HomeIn(topology)) && Homed(Reg().vcs, old(HomeIn(topology)) - {serverID})
      ensures r <==> exists c :: c in old(vcs) && serverID in old(vcs[c].Servers)
    {
      hide Topology.Valid, HomeIn, Linked, Keyed, NamesAgree, Apart, Exact, Homed, VCListMap.Ids, VCListMap.At,
        VCListMap.Valid, VCManager.Wf;
      ghost var reg, home := Reg(), HomeIn(topology);
      HasUsers(serverID);
      var found := serverID in serverVCs.internal;
      var detached := false;
      if found {
        detached := WalkServerList(serverVCs.internal[serverID], serverID, home);
      }
      ForgetServer(serverID, home);
      DetachServerKeepsExact(reg, serverID, home);
      HomedInMore(VCRegistry.DetachServer(reg, serverID, home).vcs, home, {serverID});
      assert Reg() == VCRegistry.DetachServer(reg, serverID, home);
      return found && detached;
    }

    // ---------- DetachLeaf ----------

    /** The cluster gives up a leaf and the servers below it. */
    method TakeLeaf(vc: VirtualCluster, leafID: u16, ghost home: map<u16, u16>)
      returns (isDetached: bool, detachedServers: seq<Node>)
      requires topology.Valid() && Wf() && vc.ClusterID in vcs && vcs[vc.ClusterID] == vc
      requires home == HomeIn(topology)
      modifies vc`Servers, vc`Leaves
      ensures var gone := if leafID in old(vc.Leaves) then Below(old(vc.Servers.Keys), leafID, home) else {};
              && (set n | n in detachedServers :: n.ID) == gone
              && Clusters() ==
                old(Clusters())[vc.ClusterID := Cluster(old(vc.Servers.Keys) - gone, old(vc.Leaves.Keys) - {leafID})]
      ensures forall i, j | 0 <= i < j < |detachedServers| :: detachedServers[i].ID != detachedServers[j].ID
      ensures Wf() && leafID !in vc.Leaves && Reg() == old(Reg()).(vcs := Clusters())
      ensures topology.Valid() && HomeIn(topology) == home
    {
      hide Topology.Valid, HomeIn, Linked, Keyed, VCListMap.Ids, VCListMap.At, VCManager.Clusters, VCListMap.Valid,
        VirtualCluster.HeldBy, VCManager.OnlyCluster;
      isDetached, detachedServers := vc.DetachLeaf(leafID, topology, home);
      assert topology.Valid();
      assert HomeIn(topology) == home;
      AfterLoss(vc.ClusterID);
    }

    /** Takes the cluster off the lists of the servers it has lost. */
    method UnlistServers(nodes: seq<Node>, vc: VirtualCluster, ghost home: map<u16, u16>)
      requires topology.Valid() && Wf() && home == HomeIn(topology)
      requires forall i, j | 0 <= i < j < |nodes| :: nodes[i].ID != nodes[j].ID
      modifies serverVCs, serverVCs.Buffers()
      ensures Wf() && serverVCs.Buffers() == old(serverVCs.Buffers())
      ensures Reg() ==
              old(Reg()).(serverVCs := RemoveAt(old(Reg()).serverVCs, set n | n in nodes :: n.ID, vc.ClusterID))
      ensures topology.Valid() && HomeIn(topology) == home
    {
      hide Topology.Valid, HomeIn, Linked, Keyed, VCListMap.Ids, Spliced, VCManager.Clusters, VCListMap.Valid,
        NamesAgree;
      serverVCs.RemoveEach(nodes, vc);
      assert topology.Valid();
      assert HomeIn(topology) == home;
      AgreeAfterRemove(serverVCs, set n | n in nodes :: n.ID, vc.ClusterID);
    }

    /** The loop body of DetachLeaf. The list of the leaf is left alone. */
    method DetachLeafFrom(vc: VirtualCluster, leafID: u16, ghost home: map<u16, u16>) returns (leafDetached: bool)
      requires topology.Valid() && Wf() && vc.ClusterID in vcs && vcs[vc.ClusterID] == vc
      requires home == HomeIn(topology)
      modifies this`vcs, vc`Servers, vc`Leaves, serverVCs, serverVCs.Buffers(), leafVCs, leafVCs.Buffers()
      ensures Wf() && Shrinks()
      ensures Reg() == VCRegistry.DetachLeafFrom(old(Reg()), vc.ClusterID, leafID, home)
      ensures serverVCs.Buffers() == old(serverVCs.Buffers()) && leafVCs.Buffers() == old(leafVCs.Buffers())
      ensures leafID in old(leafVCs.internal) ==>
                leafID in leafVCs.internal && leafVCs.internal[leafID] == old(leafVCs.internal)[leafID]
      ensures topology.Valid() && HomeIn(topology) == home
    {
      hide Topology.Valid, HomeIn, Linked, Keyed, NamesAgree, VCListMap.Ids, VCListMap.At, VCListMap.Valid,
        VCListMap.Buffers;
      assert Reg().vcs[vc.ClusterID] == vc.AsCluster();
      var detachedServers;
      leafDetached, detachedServers := TakeLeaf(vc, leafID, home);
      UnlistServers(detachedServers, vc, home);
      assert Reg() == VCRegistry.LoseLeaf(old(Reg()), vc.ClusterID, leafID, home);
      RemoveEmpty(vc, home);
    }

    lemma MeetsOnLeafList(r: Registry, l: u16, home: map<u16, u16>, i: nat)
      requires Wf() && l in leafVCs.internal && i < leafVCs.internal[l].len
      requires Exact(r) && Homed(r.vcs, home) && l in r.leafVCs && |r.leafVCs[l]| == leafVCs.internal[l].len
      requires Reg() == DetachLeafFromAll(r, r.leafVCs[l][..i], l, home)
      ensures var vc := leafVCs.internal[l].buf[i];
              && vc.ClusterID in vcs && vcs[vc.ClusterID] == vc
              && DetachLeafFromAll(r, r.leafVCs[l][..i+1], l, home) ==
                 VCRegistry.DetachLeafFrom(Reg(), vc.ClusterID, l, home)
    {
      LeafWalkMeets(r, l, home, i);
      var vc := leafVCs.internal[l].buf[i];
      assert vc.ClusterID == r.leafVCs[l][i] by { assert leafVCs.Ids()[l][i] == leafVCs.At(l)[i].ClusterID; }
      OnList(leafVCs, l, i);
    }

    /** The loop of DetachLeaf. */
    method WalkLeafList(vcList: Slice, leafID: u16, ghost home: map<u16, u16>) returns (detached: bool)
      requires Valid() && leafID in Reg().leafVCs && leafID in leafVCs.internal && vcList == leafVCs.internal[leafID]
      requires |Reg().leafVCs[leafID]| == vcList.len && home == HomeIn(topology)
      modifies this`vcs, vcs.Values`Servers, vcs.Values`Leaves
      modifies serverVCs, serverVCs.Buffers(), leafVCs, leafVCs.Buffers()
      ensures Wf() && Shrinks()
      ensures Reg() == DetachLeafFromAll(old(Reg()), old(Reg()).leafVCs[leafID], leafID, home)
      ensures serverVCs.Buffers() == old(serverVCs.Buffers()) && leafVCs.Buffers() == old(leafVCs.Buffers())
      ensures topology.Valid() && HomeIn(topology) == home
    {
      hide Linked, Keyed, NamesAgree, Exact, Homed, Topology.Valid, HomeIn, VCListMap.Ids, VCListMap.At;
      ghost var r := Reg();
      ghost var cs := r.leafVCs[leafID];
      detached := true;
      for i := 0 to vcList.len
        invariant Wf() && Shrinks() && topology.Valid() && HomeIn(topology) == home
        invariant serverVCs.Buffers() == old(serverVCs.Buffers()) && leafVCs.Buffers() == old(leafVCs.Buffers())
        invariant leafID in leafVCs.internal && leafVCs.internal[leafID] == vcList
        invariant |cs| == vcList.len && Reg() == DetachLeafFromAll(r, cs[..i], leafID, home)
      {
        MeetsOnLeafList(r, leafID, home, i);
        var vc := vcList.buf[i];
        var leafDetached := DetachLeafFrom(vc, leafID, home);
        detached := detached && leafDetached;
      }
      assert cs[..vcList.len] == cs;
    }

    /** Takes a key off the index of leaves. */
    method ForgetLeaf(leafID: u16, ghost home: map<u16, u16>)
      requires topology.Valid() && Wf() && home == HomeIn(topology)
      modifies leafVCs
      ensures Wf() && leafVCs.Buffers() <= old(leafVCs.Buffers())
      ensures Reg() == old(Reg()).(leafVCs := old(Reg()).leafVCs - {leafID})
      ensures topology.Valid() && HomeIn(topology) == home
    {
      hide Topology.Valid, HomeIn, Linked, Keyed, VCListMap.Ids;
      leafVCs.DeleteVCList(leafID);
      assert topology.Valid();
      assert HomeIn(topology) == home;
    }

    /** A leaf and its servers leave every cluster. The answer is always true. */
    method DetachLeaf(leafID: u16) returns (r: bool)
      requires Valid()
      modifies this`vcs, vcs.Values`Servers, vcs.Values`Leaves
      modifies serverVCs, serverVCs.Buffers(), leafVCs, leafVCs.Buffers()
      ensures Valid() && Shrinks()
      ensures Reg() == VCRegistry.DetachLeaf(old(Reg()), leafID, old(HomeIn(topology)))
      ensures HomeIn(topology) == old(HomeIn(topology))
      ensures Homed(Reg().vcs, old(HomeIn(topology)) - Children(leafID, old(HomeIn(topology))))
      ensures r
    {
      hide Topology.Valid, HomeIn, Linked, Keyed, NamesAgree, Apart, Exact, Homed, VCListMap.Ids, VCListMap.At,
        VCListMap.Valid, VCManager.Wf;
      ghost var reg, home := Reg(), HomeIn(topology);
      LeafListed(leafID);
      var found := leafID in leafVCs.internal;
      var detached := true;
      if found {
        detached := WalkLeafList(leafVCs.internal[leafID], leafID, home);
      }
      ForgetLeaf(leafID, home);
      DetachLeafKeepsExact(reg, leafID, home);
      HomedInMore(VCRegistry.DetachLeaf(reg, leafID, home).vcs, home, Children(leafID, home));
      assert Reg() == VCRegistry.DetachLeaf(reg, leafID, home);
      return found || detached;
    }

    lemma LeafListed(leafID: u16)
      requires Wf()
      ensures leafID in leafVCs.internal <==> leafID in Reg().leafVCs
      ensures leafID in leafVCs.internal ==> |Reg().leafVCs[leafID]| == leafVCs.internal[leafID].len
    {
    }
  }

  lemma LostServer(r: Registry, was: Cluster, between: Registry, now: Registry, c: u16, s: u16, home: map<u16, u16>)
    requires c in r.vcs && r.vcs[c] == was
    requires s in home || !LosesLeaf(was, s, home)
    requires var less := Cluster(was.servers - {s}, was.leaves);
             && between == r.(vcs := r.vcs[c := less])
             && now == if !LosesLeaf(was, s, home) then between
                       else between.(vcs := between.vcs[c := less.(leaves := less.leaves - {home[s]})],
                                     leafVCs := RemoveAt(between.leafVCs, {home[s]}, c))
    ensures now == VCRegistry.LoseServer(r, c, s, home)
  {
    NothingToRemove(r.leafVCs, c);
    assert was.leaves - {} == was.leaves;
  }

  lemma HomedInMore(vcs: map<u16, Cluster>, home: map<u16, u16>, gone: set<u16>)
    requires Homed(vcs, home - gone)
    ensures Homed(vcs, home)
  {
  }

  lemma HomedWithOneMore(vcs: map<u16, Cluster>, c: u16, vc: Cluster, home: map<u16, u16>)
    requires Homed(vcs, home) && vc.servers <= home.Keys && vc.leaves == Above(vc.servers, home)
    ensures Homed(vcs[c := vc], home)
  {
  }
}
