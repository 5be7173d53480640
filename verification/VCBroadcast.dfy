/** The loops that tell a leaf about virtual clusters: the push of core/net/rpc_endpoint_spine.go and the
    pull of core/net/topologyServer_central.go. */
module VCBroadcast {
  import opened Words
  import opened TopologyTree
  import opened VCRegistry
  import opened VirtualClusters
  import opened VCDelivery

  /** The inner loop of the push: the servers of the new cluster below one leaf. */
  method PushedTo(leaf: Node, servers: seq<u16>, t: Topology) returns (sent: seq<u16>)
    ensures ToSet(sent) == Below(ToSet(servers), leaf.ID, HomeIn(t))
  {
    sent := [];
    ghost var home := HomeIn(t);
    for i := 0 to |servers|
      invariant ToSet(sent) == Below(ToSet(servers[..i]), leaf.ID, home)
    {
      ToSetStep(servers, i);
      if servers[i] in t.Servers {
        var server := t.Servers[servers[i]];
        if server.Parent != null && server.Parent.ID == leaf.ID {
          ToSetAppend(sent, servers[i]);
          sent := sent + [servers[i]];
        }
      }
    }
    assert servers[..|servers|] == servers;
  }

  /** The push: one message for each leaf of the cluster, until one refuses. `answers` is what the leaves
      would say. */
  method Broadcast(leaves: seq<Node>, servers: seq<u16>, t: Topology, answers: seq<bool>)
    returns (sent: seq<seq<u16>>)
    requires |answers| == |leaves|
    ensures |sent| == Told(answers)
    ensures forall i | 0 <= i < |sent| :: ToSet(sent[i]) == Below(ToSet(servers), leaves[i].ID, HomeIn(t))
  {
    sent := [];
    for i := 0 to |leaves|
      invariant |sent| == i && forall j | 0 <= j < i :: answers[j]
      invariant forall j | 0 <= j < i :: ToSet(sent[j]) == Below(ToSet(servers), leaves[j].ID, HomeIn(t))
    {
      var one := PushedTo(leaves[i], servers, t);
      sent := sent + [one];
      if !answers[i] {
        ToldUpTo(answers, i + 1);
        return;
      }
    }
    ToldUpTo(answers, |answers|);
  }

  lemma ToldUpTo(answers: seq<bool>, n: nat)
    requires n <= |answers| && forall j | 0 <= j < n - 1 :: answers[j]
    requires n < |answers| ==> n > 0 && !answers[n - 1]
    requires n == |answers| == 0 || n > 0
    ensures Told(answers) == n
  {
    if n > 0 {
      assert AllYes(answers, n - 1);
      assert n < |answers| ==> !AllYes(answers, n);
    }
  }

  /** The inner loop of the pull: the servers of a registered cluster below one leaf, in the order in
      which the map happens to yield them. */
  method PulledBy(leaf: Node, vc: VirtualCluster, ghost t: Topology) returns (names: seq<u16>)
    requires t.Valid() && vc.HeldBy(t)
    ensures ToSet(names) == Below(vc.Servers.Keys, leaf.ID, HomeIn(t))
    ensures NoDup(names)
  {
    hide Linked;
    names := [];
    var rest := vc.Servers.Keys;
    ghost var home := HomeIn(t);
    while rest != {}
      invariant rest <= vc.Servers.Keys
      invariant ToSet(names) == Below(vc.Servers.Keys - rest, leaf.ID, home)
      invariant NoDup(names)
      decreases rest
    {
      var id :| id in rest;
      var server := vc.Servers[id];
      rest := rest - {id};
      assert server.ID == id;
      if server.Parent != null && server.Parent.ID == leaf.ID {
        ToSetAppend(names, server.ID);
        assert id !in ToSet(names);
        names := names + [server.ID];
      }
    }
  }
}
