/** The registry of virtual clusters as a value: the clusters themselves and the two inverted indexes
    of core/vcManager.go, from servers and from leaves to the clusters that use them.

    The operations follow the code step by step. In particular the detach operations walk one list
    of an index while each step edits the indexes; the lemmas show that the walk is not disturbed,
    what it amounts to, and that the indexes stay exact inverses. */
module VCRegistry {
  import opened Words

  /** The servers and leaves of one virtual cluster, by ID. */
  datatype Cluster = Cluster(servers: set<u16>, leaves: set<u16>)

  datatype Registry = Registry(vcs: map<u16, Cluster>,
                               serverVCs: map<u16, seq<u16>>, leafVCs: map<u16, seq<u16>>)

  // ---------- lists of an index ----------

  function ListAt(m: map<u16, seq<u16>>, k: u16): seq<u16> {
    if k in m then m[k] else []
  }

  ghost predicate NoDup(cs: seq<u16>) {
    forall i, j | 0 <= i < j < |cs| :: cs[i] != cs[j]
  }

  /** First position of `c`; the length of the list if it is absent. */
  function FirstAt(cs: seq<u16>, c: u16): (k: nat)
    ensures k <= |cs|
    ensures k < |cs| ==> cs[k] == c
    ensures forall i | 0 <= i < k :: cs[i] != c
  {
    if cs == [] then 0
    else
      var k := FirstAt(cs[..|cs|-1], c);
      if k < |cs| - 1 then k else if cs[|cs|-1] == c then k else k + 1
  }

  /** The list with the first occurrence of `c` spliced out. */
  function Without(cs: seq<u16>, c: u16): seq<u16> {
    var k := FirstAt(cs, c);
    if k == |cs| then cs else cs[..k] + cs[k+1..]
  }

  function AppendAt(m: map<u16, seq<u16>>, keys: set<u16>, c: u16): map<u16, seq<u16>> {
    map k | k in m.Keys + keys :: if k in keys then ListAt(m, k) + [c] else m[k]
  }

  function RemoveAt(m: map<u16, seq<u16>>, keys: set<u16>, c: u16): map<u16, seq<u16>> {
    map k | k in m :: if k in keys then Without(m[k], c) else m[k]
  }

  lemma WithoutIsExact(cs: seq<u16>, c: u16)
    requires NoDup(cs)
    ensures NoDup(Without(cs, c))
    ensures forall d :: d in Without(cs, c) <==> d in cs && d != c
  {
    var k := FirstAt(cs, c);
    if k < |cs| {
      var rest := cs[..k] + cs[k+1..];
      forall d ensures d in rest <==> d in cs && d != c {
        if d in cs && d != c {
          var i :| 0 <= i < |cs| && cs[i] == d;
          assert rest[if i < k then i else i - 1] == d;
        }
      }
    }
  }

  // ---------- the invariants ----------

  /** Each list of the index names, once each, exactly the clusters that use its key. */
  ghost predicate Inverse(m: map<u16, seq<u16>>, uses: map<u16, set<u16>>) {
    && (forall k | k in m :: NoDup(m[k]))
    && (forall k, c :: c in ListAt(m, k) <==> c in uses && k in uses[c])
  }

  function ServersOf(vcs: map<u16, Cluster>): map<u16, set<u16>> {
    map c | c in vcs :: vcs[c].servers
  }

  function LeavesOf(vcs: map<u16, Cluster>): map<u16, set<u16>> {
    map c | c in vcs :: vcs[c].leaves
  }

  ghost predicate Exact(r: Registry) {
    Inverse(r.serverVCs, ServersOf(r.vcs)) && Inverse(r.leafVCs, LeavesOf(r.vcs))
  }

  /** The leaves above a set of servers. */
  function Above(servers: set<u16>, home: map<u16, u16>): set<u16>
    requires servers <= home.Keys
  {
    set s | s in servers :: home[s]
  }

  /** The leaves of a cluster are exactly the parents of its servers, all of which exist. */
  ghost predicate Homed(vcs: map<u16, Cluster>, home: map<u16, u16>) {
    forall c | c in vcs :: vcs[c].servers <= home.Keys && vcs[c].leaves == Above(vcs[c].servers, home)
  }

  // ---------- the operations ----------

  function AddVC(r: Registry, c: u16, vc: Cluster): Registry {
    if c in r.vcs then r
    else Registry(r.vcs[c := vc], AppendAt(r.serverVCs, vc.servers, c), AppendAt(r.leafVCs, vc.leaves, c))
  }

  function RemoveVC(r: Registry, c: u16): Registry {
    if c !in r.vcs then r
    else Registry(r.vcs - {c}, RemoveAt(r.serverVCs, r.vcs[c].servers, c), RemoveAt(r.leafVCs, r.vcs[c].leaves, c))
  }

  function RemoveIfEmpty(r: Registry, c: u16): Registry {
    if c in r.vcs && r.vcs[c].servers == {} then RemoveVC(r, c) else r
  }

  /** Does the cluster lose the leaf of `s` when `s` goes? Only if no other child of it is a member. */
  predicate LosesLeaf(vc: Cluster, s: u16, home: map<u16, u16>) {
    s in vc.servers && s in home &&
    !exists t :: t in vc.servers && t != s && t in home && home[t] == home[s]
  }

  /** A cluster loses a server, and with it the leaf above if no other child of that leaf is a member. */
  function LoseServer(r: Registry, c: u16, s: u16, home: map<u16, u16>): Registry
    requires c in r.vcs
  {
    var vc := r.vcs[c];
    var lost := if LosesLeaf(vc, s, home) then {home[s]} else {};
    Registry(r.vcs[c := Cluster(vc.servers - {s}, vc.leaves - lost)], r.serverVCs, RemoveAt(r.leafVCs, lost, c))
  }

  /** One round of the loop of DetachServer. */
  function DetachServerFrom(r: Registry, c: u16, s: u16, home: map<u16, u16>): Registry {
    if c !in r.vcs then r else RemoveIfEmpty(LoseServer(r, c, s, home), c)
  }

  function DetachServerFromAll(r: Registry, cs: seq<u16>, s: u16, home: map<u16, u16>): Registry {
    if cs == [] then r
    else DetachServerFrom(DetachServerFromAll(r, cs[..|cs|-1], s, home), cs[|cs|-1], s, home)
  }

  function DetachServer(r: Registry, s: u16, home: map<u16, u16>): Registry {
    var d := DetachServerFromAll(r, ListAt(r.serverVCs, s), s, home);
    d.(serverVCs := d.serverVCs - {s})
  }

  /** The servers of a cluster that sit below the leaf. */
  function Below(servers: set<u16>, leaf: u16, home: map<u16, u16>): set<u16> {
    set s | s in servers && s in home && home[s] == leaf
  }

  /** A cluster loses a leaf and all servers below it. */
  function LoseLeaf(r: Registry, c: u16, leaf: u16, home: map<u16, u16>): Registry
    requires c in r.vcs
  {
    var vc := r.vcs[c];
    var gone := if leaf in vc.leaves then Below(vc.servers, leaf, home) else {};
    Registry(r.vcs[c := Cluster(vc.servers - gone, vc.leaves - {leaf})], RemoveAt(r.serverVCs, gone, c), r.leafVCs)
  }

  /** One round of the loop of DetachLeaf. */
  function DetachLeafFrom(r: Registry, c: u16, leaf: u16, home: map<u16, u16>): Registry {
    if c !in r.vcs then r else RemoveIfEmpty(LoseLeaf(r, c, leaf, home), c)
  }

  function DetachLeafFromAll(r: Registry, cs: seq<u16>, leaf: u16, home: map<u16, u16>): Registry {
    if cs == [] then r
    else DetachLeafFrom(DetachLeafFromAll(r, cs[..|cs|-1], leaf, home), cs[|cs|-1], leaf, home)
  }

  function DetachLeaf(r: Registry, leaf: u16, home: map<u16, u16>): Registry {
    var d := DetachLeafFromAll(r, ListAt(r.leafVCs, leaf), leaf, home);
    d.(leafVCs := d.leafVCs - {leaf})
  }

  // ---------- AddVC and RemoveVC ----------

  lemma AppendKeepsInverse(m: map<u16, seq<u16>>, uses: map<u16, set<u16>>, keys: set<u16>, c: u16)
    requires Inverse(m, uses) && c !in uses
    ensures Inverse(AppendAt(m, keys, c), uses[c := keys])
  {
    var n := AppendAt(m, keys, c);
    forall k, d ensures d in ListAt(n, k) <==> d in uses[c := keys] && k in uses[c := keys][d] {
      assert d in ListAt(m, k) <==> d in uses && k in uses[d];
    }
    forall k | k in n ensures NoDup(n[k]) {
      assert c !in ListAt(m, k);
    }
  }

  lemma RemoveKeepsInverse(m: map<u16, seq<u16>>, uses: map<u16, set<u16>>, c: u16)
    requires Inverse(m, uses) && c in uses
    ensures Inverse(RemoveAt(m, uses[c], c), uses - {c})
  {
    hide Without, NoDup;
    var n := RemoveAt(m, uses[c], c);
    forall k, d ensures d in ListAt(n, k) <==> d in uses - {c} && k in (uses - {c})[d] {
      assert d in ListAt(m, k) <==> d in uses && k in uses[d];
      assert c in ListAt(m, k) <==> c in uses && k in uses[c];
      WithoutIsExact(ListAt(m, k), c);
    }
    forall k | k in n ensures NoDup(n[k]) {
      WithoutIsExact(m[k], c);
    }
  }

  lemma AddVCKeepsExact(r: Registry, c: u16, vc: Cluster)
    requires Exact(r)
    ensures Exact(AddVC(r, c, vc))
  {
    if c !in r.vcs {
      AppendKeepsInverse(r.serverVCs, ServersOf(r.vcs), vc.servers, c);
      AppendKeepsInverse(r.leafVCs, LeavesOf(r.vcs), vc.leaves, c);
      assert ServersOf(r.vcs[c := vc]) == ServersOf(r.vcs)[c := vc.servers];
      assert LeavesOf(r.vcs[c := vc]) == LeavesOf(r.vcs)[c := vc.leaves];
    }
  }

  lemma RemoveVCKeepsExact(r: Registry, c: u16)
    requires Exact(r)
    ensures Exact(RemoveVC(r, c))
  {
    if c in r.vcs {
      RemoveKeepsInverse(r.serverVCs, ServersOf(r.vcs), c);
      RemoveKeepsInverse(r.leafVCs, LeavesOf(r.vcs), c);
      assert ServersOf(r.vcs - {c}) == ServersOf(r.vcs) - {c};
      assert LeavesOf(r.vcs - {c}) == LeavesOf(r.vcs) - {c};
    }
  }

  // ---------- DetachServer ----------

  /** What a cluster is without a server. */
  function Less(vc: Cluster, gone: set<u16>, home: map<u16, u16>): Cluster
    requires vc.servers <= home.Keys
  {
    Cluster(vc.servers - gone, Above(vc.servers - gone, home))
  }

  /** The clusters `done` were handled: they lost `gone`, and are dropped if nothing is left. */
  ghost predicate Handled(before: map<u16, Cluster>, after: map<u16, Cluster>, done: seq<u16>,
                          gone: set<u16>, home: map<u16, u16>)
    requires Homed(before, home)
  {
    && (forall c :: c in after <==> c in before && (c in done ==> before[c].servers - gone != {}))
    && (forall c | c in after :: after[c] == if c in done then Less(before[c], gone, home) else before[c])
  }

  /** The state after handling the clusters `done` in DetachServer: the list that is being walked,
      and the whole index it belongs to, are as they were. */
  ghost predicate ServerWalk(r: Registry, now: Registry, done: seq<u16>, s: u16, home: map<u16, u16>)
    requires Homed(r.vcs, home) && s in home
  {
    && Handled(r.vcs, now.vcs, done, {s}, home)
    && now.serverVCs == r.serverVCs
    && now.leafVCs.Keys == r.leafVCs.Keys
    && (forall k | k in r.leafVCs && k != home[s] :: now.leafVCs[k] == r.leafVCs[k])
    && (home[s] in r.leafVCs ==>
          && NoDup(now.leafVCs[home[s]])
          && forall c :: c in now.leafVCs[home[s]] <==>
               c in r.leafVCs[home[s]] && (c in done && c in r.vcs ==> !LosesLeaf(r.vcs[c], s, home)))
  }

  lemma LessOfServer(vc: Cluster, s: u16, home: map<u16, u16>)
    requires vc.servers <= home.Keys && vc.leaves == Above(vc.servers, home) && s in vc.servers
    ensures Less(vc, {s}, home) ==
            Cluster(vc.servers - {s}, vc.leaves - (if LosesLeaf(vc, s, home) then {home[s]} else {}))
  {
    var less := Less(vc, {s}, home);
    forall l ensures l in less.leaves <==> l in vc.leaves && !(LosesLeaf(vc, s, home) && l == home[s]) {
      if l in vc.leaves && !(LosesLeaf(vc, s, home) && l == home[s]) {
        var t :| t in vc.servers && home[t] == l;
        if t == s {
          var u :| u in vc.servers && u != s && u in home && home[u] == home[s];
        }
      }
    }
  }

  lemma NothingToRemove(m: map<u16, seq<u16>>, c: u16)
    ensures RemoveAt(m, {}, c) == m
  {
  }

  /** One round of the walk, on the cluster as it was at the start. */
  lemma ServerRound(now: Registry, c: u16, s: u16, home: map<u16, u16>)
    requires c in now.vcs && s in now.vcs[c].servers
    requires now.vcs[c].servers <= home.Keys && now.vcs[c].leaves == Above(now.vcs[c].servers, home)
    ensures var vc := now.vcs[c];
            var less := Less(vc, {s}, home);
            DetachServerFrom(now, c, s, home) ==
            Registry(if less.servers == {} then now.vcs - {c} else now.vcs[c := less], now.serverVCs,
                     RemoveAt(now.leafVCs, if LosesLeaf(vc, s, home) then {home[s]} else {}, c))
  {
    var vc := now.vcs[c];
    LessOfServer(vc, s, home);
    var less := Less(vc, {s}, home);
    NothingToRemove(now.serverVCs, c);
    NothingToRemove(RemoveAt(now.leafVCs, if LosesLeaf(vc, s, home) then {home[s]} else {}, c), c);
    assert less.servers == {} ==> less.leaves == {};
    assert now.vcs[c := less] - {c} == now.vcs - {c};
  }

  lemma ServerWalkStep(r: Registry, now: Registry, done: seq<u16>, c: u16, s: u16, home: map<u16, u16>)
    requires Exact(r) && Homed(r.vcs, home) && s in home
    requires ServerWalk(r, now, done, s, home)
    requires c !in done && c in r.vcs && s in r.vcs[c].servers
    ensures ServerWalk(r, DetachServerFrom(now, c, s, home), done + [c], s, home)
  {
    hide DetachServerFrom, Less, Without, Exact, LosesLeaf;
    var vc, next := r.vcs[c], DetachServerFrom(now, c, s, home);
    assert now.vcs[c] == vc;
    ServerRound(now, c, s, home);
    LessOfServer(vc, s, home);
    assert Handled(r.vcs, next.vcs, done + [c], {s}, home);
    if home[s] in r.leafVCs {
      WithoutIsExact(now.leafVCs[home[s]], c);
    }
  }

  lemma {:induction false} ServerWalkHolds(r: Registry, cs: seq<u16>, s: u16, home: map<u16, u16>)
    requires Exact(r) && Homed(r.vcs, home) && s in home
    requires NoDup(cs) && forall c | c in cs :: c in r.vcs && s in r.vcs[c].servers
    ensures ServerWalk(r, DetachServerFromAll(r, cs, s, home), cs, s, home)
  {
    if cs != [] {
      var most, c := cs[..|cs|-1], cs[|cs|-1];
      ServerWalkHolds(r, most, s, home);
      ServerWalkStep(r, DetachServerFromAll(r, most, s, home), most, c, s, home);
      assert most + [c] == cs;
    }
  }

  /** The clusters after a server is detached: it is gone everywhere, and exactly the clusters it
      leaves without servers are dropped. */
  function VCsWithout(vcs: map<u16, Cluster>, gone: set<u16>, home: map<u16, u16>): map<u16, Cluster>
    requires Homed(vcs, home)
  {
    map c | c in vcs && (vcs[c].servers * gone == {} || vcs[c].servers - gone != {}) ::
      if vcs[c].servers * gone == {} then vcs[c] else Less(vcs[c], gone, home)
  }

  lemma UsersOfServer(r: Registry, s: u16)
    requires Exact(r)
    ensures NoDup(ListAt(r.serverVCs, s))
    ensures forall c :: c in ListAt(r.serverVCs, s) <==> c in r.vcs && s in r.vcs[c].servers
  {
    forall c ensures c in ListAt(r.serverVCs, s) <==> c in r.vcs && s in r.vcs[c].servers {
      assert c in ListAt(r.serverVCs, s) <==> c in ServersOf(r.vcs) && s in ServersOf(r.vcs)[c];
    }
  }

  lemma UsersOfLeaf(r: Registry, l: u16)
    requires Exact(r)
    ensures NoDup(ListAt(r.leafVCs, l))
    ensures forall c :: c in ListAt(r.leafVCs, l) <==> c in r.vcs && l in r.vcs[c].leaves
  {
    forall c ensures c in ListAt(r.leafVCs, l) <==> c in r.vcs && l in r.vcs[c].leaves {
      assert c in ListAt(r.leafVCs, l) <==> c in LeavesOf(r.vcs) && l in LeavesOf(r.vcs)[c];
    }
  }

  /** The walk of DetachServer meets each cluster of the list as it was when the walk began. */
  lemma ServerWalkMeets(r: Registry, s: u16, home: map<u16, u16>, i: nat)
    requires Exact(r) && Homed(r.vcs, home) && i < |ListAt(r.serverVCs, s)|
    ensures var cs := ListAt(r.serverVCs, s);
            var now := DetachServerFromAll(r, cs[..i], s, home);
            && now.serverVCs == r.serverVCs
            && cs[i] in r.vcs && cs[i] in now.vcs && now.vcs[cs[i]] == r.vcs[cs[i]] && s in r.vcs[cs[i]].servers
            && DetachServerFromAll(r, cs[..i+1], s, home) == DetachServerFrom(now, cs[i], s, home)
  {
    var cs := ListAt(r.serverVCs, s);
    UsersOfServer(r, s);
    assert cs[i] in cs;
    ServerWalkHolds(r, cs[..i], s, home);
    assert cs[..i+1][..i] == cs[..i];
  }

  lemma DetachServerVCs(r: Registry, s: u16, home: map<u16, u16>)
    requires Exact(r) && Homed(r.vcs, home)
    ensures DetachServer(r, s, home).vcs == VCsWithout(r.vcs, {s}, home)
  {
    var cs := ListAt(r.serverVCs, s);
    UsersOfServer(r, s);
    if cs != [] {
      assert cs[0] in cs;
      ServerWalkHolds(r, cs, s, home);
    }
    forall c | c in r.vcs ensures r.vcs[c].servers * {s} == {} <==> c !in cs {
      assert s in r.vcs[c].servers ==> s in r.vcs[c].servers * {s};
    }
  }

  lemma ServerWalkKeepsLeafIndex(r: Registry, now: Registry, cs: seq<u16>, s: u16, home: map<u16, u16>)
    requires Exact(r) && Homed(r.vcs, home) && s in home
    requires ServerWalk(r, now, cs, s, home)
    requires forall c :: c in cs <==> c in r.vcs && s in r.vcs[c].servers
    ensures Inverse(now.leafVCs, LeavesOf(now.vcs))
  {
    forall k, c ensures c in ListAt(now.leafVCs, k) <==> c in LeavesOf(now.vcs) && k in LeavesOf(now.vcs)[c] {
      UsersOfLeaf(r, k);
      if c in cs {
        LessOfServer(r.vcs[c], s, home);
        assert c !in now.vcs ==> r.vcs[c].servers - {s} == {};
        assert c !in now.vcs ==> Less(r.vcs[c], {s}, home).leaves == {};
        assert c in ListAt(now.leafVCs, k) <==> k in Less(r.vcs[c], {s}, home).leaves;
      } else {
        assert c in ListAt(now.leafVCs, k) <==> c in ListAt(r.leafVCs, k);
      }
    }
  }

  lemma ServerWalkKeepsServerIndex(r: Registry, now: Registry, cs: seq<u16>, s: u16, home: map<u16, u16>)
    requires Exact(r) && Homed(r.vcs, home) && s in home
    requires ServerWalk(r, now, cs, s, home)
    requires forall c :: c in cs <==> c in r.vcs && s in r.vcs[c].servers
    ensures Inverse(now.serverVCs - {s}, ServersOf(now.vcs))
  {
    var index := now.serverVCs - {s};
    forall k, c ensures c in ListAt(index, k) <==> c in ServersOf(now.vcs) && k in ServersOf(now.vcs)[c] {
      UsersOfServer(r, k);
    }
  }

  lemma DetachServerKeepsExact(r: Registry, s: u16, home: map<u16, u16>)
    requires Exact(r) && Homed(r.vcs, home)
    ensures Exact(DetachServer(r, s, home)) && Homed(DetachServer(r, s, home).vcs, home - {s})
  {
    var cs := ListAt(r.serverVCs, s);
    UsersOfServer(r, s);
    if cs != [] {
      assert cs[0] in cs;
      ServerWalkHolds(r, cs, s, home);
      var now := DetachServerFromAll(r, cs, s, home);
      ServerWalkKeepsServerIndex(r, now, cs, s, home);
      ServerWalkKeepsLeafIndex(r, now, cs, s, home);
    } else {
      UnlistedKeyGoes(r.serverVCs, ServersOf(r.vcs), s);
      DetachServerVCs(r, s, home);
    }
  }

  lemma UnlistedKeyGoes(m: map<u16, seq<u16>>, uses: map<u16, set<u16>>, k: u16)
    requires Inverse(m, uses) && ListAt(m, k) == []
    ensures Inverse(m - {k}, uses)
  {
    forall j, c ensures c in ListAt(m - {k}, j) <==> c in uses && j in uses[c] {
      assert c in ListAt(m, j) <==> c in uses && j in uses[c];
    }
  }

  // ---------- DetachLeaf ----------

  ghost predicate LeafWalk(r: Registry, now: Registry, done: seq<u16>, leaf: u16, home: map<u16, u16>)
    requires Homed(r.vcs, home)
  {
    && Handled(r.vcs, now.vcs, done, Children(leaf, home), home)
    && now.leafVCs == r.leafVCs
    && now.serverVCs.Keys == r.serverVCs.Keys
    && (forall k | k in r.serverVCs && k !in Children(leaf, home) :: now.serverVCs[k] == r.serverVCs[k])
    && (forall k | k in r.serverVCs && k in Children(leaf, home) ::
          && NoDup(now.serverVCs[k])
          && forall c :: c in now.serverVCs[k] <==> c in r.serverVCs[k] && c !in done)
  }

  function Children(leaf: u16, home: map<u16, u16>): set<u16> {
    set s | s in home && home[s] == leaf
  }

  lemma LessOfLeaf(vc: Cluster, leaf: u16, home: map<u16, u16>)
    requires vc.servers <= home.Keys && vc.leaves == Above(vc.servers, home)
    ensures Less(vc, Children(leaf, home), home) ==
            Cluster(vc.servers - Below(vc.servers, leaf, home), vc.leaves - {leaf})
  {
    var less := Less(vc, Children(leaf, home), home);
    assert less.servers == vc.servers - Below(vc.servers, leaf, home);
    forall l ensures l in less.leaves <==> l in vc.leaves && l != leaf {
      if l in vc.leaves && l != leaf {
        var t :| t in vc.servers && home[t] == l;
        assert t in less.servers;
      }
    }
  }

  /** One round of the walk, on the cluster as it was at the start. */
  lemma LeafRound(now: Registry, c: u16, leaf: u16, home: map<u16, u16>)
    requires c in now.vcs && leaf in now.vcs[c].leaves
    requires now.vcs[c].servers <= home.Keys && now.vcs[c].leaves == Above(now.vcs[c].servers, home)
    ensures var vc := now.vcs[c];
            var less := Less(vc, Children(leaf, home), home);
            DetachLeafFrom(now, c, leaf, home) ==
            Registry(if less.servers == {} then now.vcs - {c} else now.vcs[c := less],
                     RemoveAt(now.serverVCs, Below(vc.servers, leaf, home), c), now.leafVCs)
  {
    var vc := now.vcs[c];
    LessOfLeaf(vc, leaf, home);
    var less := Less(vc, Children(leaf, home), home);
    NothingToRemove(now.leafVCs, c);
    NothingToRemove(RemoveAt(now.serverVCs, Below(vc.servers, leaf, home), c), c);
    assert less.servers == {} ==> less.leaves == {};
    assert now.vcs[c := less] - {c} == now.vcs - {c};
  }

  lemma LeafWalkStep(r: Registry, now: Registry, done: seq<u16>, c: u16, leaf: u16, home: map<u16, u16>)
    requires Exact(r) && Homed(r.vcs, home)
    requires LeafWalk(r, now, done, leaf, home)
    requires c !in done && c in r.vcs && leaf in r.vcs[c].leaves
    ensures LeafWalk(r, DetachLeafFrom(now, c, leaf, home), done + [c], leaf, home)
  {
    hide DetachLeafFrom, Less, Without, Exact;
    var vc, next := r.vcs[c], DetachLeafFrom(now, c, leaf, home);
    assert now.vcs[c] == vc;
    LeafRound(now, c, leaf, home);
    LessOfLeaf(vc, leaf, home);
    assert Handled(r.vcs, next.vcs, done + [c], Children(leaf, home), home);
    forall k | k in r.serverVCs && k in Children(leaf, home)
      ensures NoDup(next.serverVCs[k]) && forall d :: d in next.serverVCs[k] <==>
              d in r.serverVCs[k] && d !in done + [c]
    {
      UsersOfServer(r, k);
      WithoutIsExact(now.serverVCs[k], c);
    }
  }

  lemma {:induction false} LeafWalkHolds(r: Registry, cs: seq<u16>, leaf: u16, home: map<u16, u16>)
    requires Exact(r) && Homed(r.vcs, home)
    requires NoDup(cs) && forall c | c in cs :: c in r.vcs && leaf in r.vcs[c].leaves
    ensures LeafWalk(r, DetachLeafFromAll(r, cs, leaf, home), cs, leaf, home)
  {
    if cs != [] {
      var most, c := cs[..|cs|-1], cs[|cs|-1];
      LeafWalkHolds(r, most, leaf, home);
      LeafWalkStep(r, DetachLeafFromAll(r, most, leaf, home), most, c, leaf, home);
      assert most + [c] == cs;
    }
  }

  /** The walk of DetachLeaf meets each cluster of the list as it was when the walk began. */
  lemma LeafWalkMeets(r: Registry, leaf: u16, home: map<u16, u16>, i: nat)
    requires Exact(r) && Homed(r.vcs, home) && i < |ListAt(r.leafVCs, leaf)|
    ensures var cs := ListAt(r.leafVCs, leaf);
            var now := DetachLeafFromAll(r, cs[..i], leaf, home);
            && now.leafVCs == r.leafVCs
            && cs[i] in r.vcs && cs[i] in now.vcs && now.vcs[cs[i]] == r.vcs[cs[i]] && leaf in r.vcs[cs[i]].leaves
            && DetachLeafFromAll(r, cs[..i+1], leaf, home) == DetachLeafFrom(now, cs[i], leaf, home)
  {
    var cs := ListAt(r.leafVCs, leaf);
    UsersOfLeaf(r, leaf);
    assert cs[i] in cs;
    LeafWalkHolds(r, cs[..i], leaf, home);
    assert cs[..i+1][..i] == cs[..i];
  }

  lemma DetachLeafVCs(r: Registry, leaf: u16, home: map<u16, u16>)
    requires Exact(r) && Homed(r.vcs, home)
    ensures DetachLeaf(r, leaf, home).vcs == VCsWithout(r.vcs, Children(leaf, home), home)
  {
    hide Exact, ListAt;
    UsersOfLeaf(r, leaf);
    LeafWalkHolds(r, ListAt(r.leafVCs, leaf), leaf, home);
    forall c | c in r.vcs ensures r.vcs[c].servers * Children(leaf, home) == {} <==> leaf !in r.vcs[c].leaves {
      if leaf in r.vcs[c].leaves {
        var s :| s in r.vcs[c].servers && home[s] == leaf;
        assert s in r.vcs[c].servers * Children(leaf, home);
      }
    }
  }

  lemma LeafWalkKeepsServerIndex(r: Registry, now: Registry, cs: seq<u16>, leaf: u16, home: map<u16, u16>)
    requires Exact(r) && Homed(r.vcs, home)
    requires LeafWalk(r, now, cs, leaf, home)
    requires forall c :: c in cs <==> c in r.vcs && leaf in r.vcs[c].leaves
    ensures Inverse(now.serverVCs, ServersOf(now.vcs))
  {
    forall k, c ensures c in ListAt(now.serverVCs, k) <==> c in ServersOf(now.vcs) && k in ServersOf(now.vcs)[c] {
      UsersOfServer(r, k);
      if c in cs {
        LessOfLeaf(r.vcs[c], leaf, home);
      }
    }
  }

  lemma LeafWalkKeepsLeafIndex(r: Registry, now: Registry, cs: seq<u16>, leaf: u16, home: map<u16, u16>)
    requires Exact(r) && Homed(r.vcs, home)
    requires LeafWalk(r, now, cs, leaf, home)
    requires forall c :: c in cs <==> c in r.vcs && leaf in r.vcs[c].leaves
    ensures Inverse(now.leafVCs - {leaf}, LeavesOf(now.vcs))
  {
    var index := now.leafVCs - {leaf};
    forall k, c ensures c in ListAt(index, k) <==> c in LeavesOf(now.vcs) && k in LeavesOf(now.vcs)[c] {
      UsersOfLeaf(r, k);
      if c in cs {
        LessOfLeaf(r.vcs[c], leaf, home);
        assert c !in now.vcs ==> r.vcs[c].servers - Children(leaf, home) == {};
        assert c !in now.vcs ==> Less(r.vcs[c], Children(leaf, home), home).leaves == {};
        assert c in ListAt(index, k) <==> k in Less(r.vcs[c], Children(leaf, home), home).leaves;
      }
    }
  }

  lemma DetachLeafKeepsExact(r: Registry, leaf: u16, home: map<u16, u16>)
    requires Exact(r) && Homed(r.vcs, home)
    ensures Exact(DetachLeaf(r, leaf, home)) && Homed(DetachLeaf(r, leaf, home).vcs, home - Children(leaf, home))
  {
    var cs := ListAt(r.leafVCs, leaf);
    UsersOfLeaf(r, leaf);
    LeafWalkHolds(r, cs, leaf, home);
    var now := DetachLeafFromAll(r, cs, leaf, home);
    LeafWalkKeepsServerIndex(r, now, cs, leaf, home);
    LeafWalkKeepsLeafIndex(r, now, cs, leaf, home);
  }
}
