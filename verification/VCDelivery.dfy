/** What becomes of the broadcast about a virtual cluster when a leaf refuses it (core/net/rpc_endpoint_spine.go):
    the leaves after it are not told. A leaf controller refuses a cluster whose ID it has, for instance because
    it has just pulled it from central, or of which it lacks a server; it refuses the removal of a cluster it
    does not have (core/net/topologyServer_leaf.go). */
module VCDelivery {
  import opened Words
  import opened VCRegistry
  import opened VCReplication
  import VCRequests

  ghost predicate AllYes(answers: seq<bool>, n: nat)
    requires n <= |answers|
  {
    forall j | 0 <= j < n :: answers[j]
  }

  /** How many leaves are told, if they answer so. */
  function Told(answers: seq<bool>): (n: nat)
    ensures n <= |answers|
    ensures forall i | 0 <= i < |answers| :: i < n <==> AllYes(answers, i)
  {
    if answers == [] then 0
    else
      var m := |answers| - 1;
      assert forall i | 0 <= i < m :: AllYes(answers, i) == AllYes(answers[..m], i);
      assert m > 0 ==> AllYes(answers, m) == (AllYes(answers, m - 1) && answers[m - 1]);
      var n := Told(answers[..m]);
      if n == m && (n == 0 || answers[n - 1]) then n + 1 else n
  }

  predicate Takes(ctl: Ctl, id: u16, servers: set<u16>) {
    id !in ctl.reg.vcs && servers <= ctl.home.Keys
  }

  function Answers(ctls: seq<Ctl>, id: u16, parts: seq<set<u16>>): (r: seq<bool>)
    requires |ctls| == |parts|
    ensures |r| == |ctls| && forall i | 0 <= i < |r| :: r[i] == Takes(ctls[i], id, parts[i])
  {
    seq(|ctls|, i requires 0 <= i < |ctls| => Takes(ctls[i], id, parts[i]))
  }

  /** The leaf controllers after the broadcast of a new cluster; each is sent its part of the servers. */
  function Push(ctls: seq<Ctl>, id: u16, parts: seq<set<u16>>): (r: seq<Ctl>)
    requires |ctls| == |parts|
    ensures |r| == |ctls|
  {
    var n := Told(Answers(ctls, id, parts));
    seq(|ctls|, i requires 0 <= i < |ctls| => if i < n then CtlAddVC(ctls[i], id, parts[i]) else ctls[i])
  }

  /** After the broadcast every leaf has the cluster if and only if each leaf that did not have it takes it
      and so do all the leaves before it. */
  lemma PushReachesIff(ctls: seq<Ctl>, id: u16, parts: seq<set<u16>>)
    requires |ctls| == |parts|
    ensures (forall i | 0 <= i < |ctls| :: id in Push(ctls, id, parts)[i].reg.vcs) <==>
            forall i, j | 0 <= j <= i < |ctls| && id !in ctls[i].reg.vcs :: Takes(ctls[j], id, parts[j])
  {
    var answers := Answers(ctls, id, parts);
    var n := Told(answers);
    forall i | 0 <= i < |ctls|
      ensures id in Push(ctls, id, parts)[i].reg.vcs <==>
              id in ctls[i].reg.vcs || forall j | 0 <= j <= i :: Takes(ctls[j], id, parts[j])
    {
      assert i < n <==> AllYes(answers, i);
      assert forall j | 0 <= j <= i :: answers[j] == Takes(ctls[j], id, parts[j]);
    }
  }

  /** The failing input: the first leaf has just pulled the cluster, and the second one never hears of it. */
  lemma PulledLeafBlocksTheRest(a: Ctl, b: Ctl, id: u16, parts: seq<set<u16>>)
    requires |parts| == 2 && id in a.reg.vcs && id !in b.reg.vcs
    ensures Push([a, b], id, parts)[1] == b
  {
    assert !Answers([a, b], id, parts)[0];
    assert !AllYes(Answers([a, b], id, parts), 1);
  }

  /** The leaf controllers after the broadcast of a removal. */
  function PushRemoval(ctls: seq<Ctl>, id: u16): (r: seq<Ctl>)
    ensures |r| == |ctls|
  {
    var n := Told(Knowing(ctls, id));
    seq(|ctls|, i requires 0 <= i < |ctls| => if i < n then CtlRemoveVC(ctls[i], id) else ctls[i])
  }

  function Knowing(ctls: seq<Ctl>, id: u16): (r: seq<bool>)
    ensures |r| == |ctls| && forall i | 0 <= i < |r| :: r[i] <==> id in ctls[i].reg.vcs
  {
    seq(|ctls|, i requires 0 <= i < |ctls| => id in ctls[i].reg.vcs)
  }

  /** After it no leaf has the cluster if and only if no leaf without it comes before one that has it. */
  lemma RemovalReachesIff(ctls: seq<Ctl>, id: u16)
    ensures (forall i | 0 <= i < |ctls| :: id !in PushRemoval(ctls, id)[i].reg.vcs) <==>
            forall i, j | 0 <= j < i < |ctls| && id in ctls[i].reg.vcs :: id in ctls[j].reg.vcs
  {
    var answers := Knowing(ctls, id);
    var n := Told(answers);
    forall i | 0 <= i < |ctls|
      ensures id !in PushRemoval(ctls, id)[i].reg.vcs <==>
              id !in ctls[i].reg.vcs || forall j | 0 <= j < i :: id in ctls[j].reg.vcs
    {
      assert i < n <==> AllYes(answers, i);
      assert forall j | 0 <= j <= i :: answers[j] <==> id in ctls[j].reg.vcs;
    }
  }

  // ---------- what it does at one leaf ----------

  /** If the leaf and all before it take the cluster, it gets the cluster with just its part of the servers;
      otherwise nothing changes there. Its other clusters and its topology stay in either case. */
  lemma PushedAt(ctls: seq<Ctl>, id: u16, parts: seq<set<u16>>, i: nat)
    requires |ctls| == |parts| && i < |ctls|
    ensures var was, now := ctls[i], Push(ctls, id, parts)[i];
            && now.home == was.home && VCRequests.Others(was.reg.vcs, now.reg.vcs, id)
            && if forall j | 0 <= j <= i :: id !in ctls[j].reg.vcs && parts[j] <= ctls[j].home.Keys
               then id in now.reg.vcs && now.reg.vcs[id].servers == parts[i]
               else now.reg.vcs == was.reg.vcs
  {
    var answers := Answers(ctls, id, parts);
    assert i < Told(answers) <==> AllYes(answers, i);
    assert forall j | 0 <= j <= i :: answers[j] == Takes(ctls[j], id, parts[j]);
  }

  /** The removal takes the cluster from a leaf if and only if the leaf and all before it have it, and changes
      nothing else. */
  lemma RemovedAt(ctls: seq<Ctl>, id: u16, i: nat)
    requires i < |ctls|
    ensures var was, now := ctls[i], PushRemoval(ctls, id)[i];
            && now.home == was.home && VCRequests.Others(was.reg.vcs, now.reg.vcs, id)
            && (id in now.reg.vcs <==> id in was.reg.vcs && exists j :: 0 <= j < i && id !in ctls[j].reg.vcs)
            && (id in now.reg.vcs ==> now == was)
  {
    var answers := Knowing(ctls, id);
    assert i < Told(answers) <==> AllYes(answers, i);
  }
}
