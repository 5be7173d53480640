/** What a spine's sub-tree contains, apart from the numbers (indexes, worker ranges) that follow
    from it: the bridge between the node records and the order-independence argument. */
module SpineContents {
  import opened Words
  import opened TopologySpec
  import opened WorkerRanges

  /** A leaf without the numbers its position and its servers' positions determine. */
  function Strip(l: LeafRec): LeafInfo {
    LeafInfo(l.id, l.address, l.mgmt, l.dsPort, l.usPort, 0, Contents(l.servers))
  }

  function StripAll(ls: seq<LeafRec>): (cs: seq<LeafInfo>)
    ensures |cs| == |ls|
  {
    seq(|ls|, i requires 0 <= i < |ls| => Strip(ls[i]))
  }

  /** Every leaf sits at its index. */
  ghost predicate Indexed(ls: seq<LeafRec>) {
    DistinctLeaves(ls) && IndexesArePositions(ls)
  }

  /** Every leaf sits at its index and has tiled worker ranges. */
  ghost predicate SpineOk(ls: seq<LeafRec>) {
    && Indexed(ls)
    && forall i | 0 <= i < |ls| :: LeafTiled(ls[i])
  }

  /** Chooses 0 among the two encodings of the end-of-range of a worker-less leaf. */
  function Canon(l: LeafRec): LeafRec {
    if Sum16(Contents(l.servers)) == 0 then l.(last := 0) else l
  }

  function CanonAll(ls: seq<LeafRec>): (r: seq<LeafRec>)
    ensures |r| == |ls|
  {
    seq(|ls|, i requires 0 <= i < |ls| => Canon(ls[i]))
  }

  function LayLeaf(c: LeafInfo, index: u16): LeafRec {
    Retile(LeafRec(c.id, c.address, c.mgmt, c.dsPort, c.usPort, index, 0, 0, []), c.servers)
  }

  lemma LeafIsLaid(l: LeafRec)
    requires LeafTiled(l)
    ensures Canon(l) == LayLeaf(Strip(l), l.index)
  {
  }

  lemma StripOfCanon(l: LeafRec)
    ensures Strip(Canon(l)) == Strip(l)
  {
  }

  /** Indexes and ranges carry no information of their own: two well-numbered spines are equal
      (up to the end-of-range of worker-less leaves) exactly when their contents are. */
  lemma ContentsDetermineSpine(a: seq<LeafRec>, b: seq<LeafRec>)
    requires SpineOk(a) && SpineOk(b)
    ensures CanonAll(a) == CanonAll(b) <==> StripAll(a) == StripAll(b)
  {
    forall i | 0 <= i < |a|
      ensures CanonAll(a)[i] == LayLeaf(StripAll(a)[i], i) && Strip(CanonAll(a)[i]) == StripAll(a)[i] {
      LeafIsLaid(a[i]);
      StripOfCanon(a[i]);
    }
    forall i | 0 <= i < |b|
      ensures CanonAll(b)[i] == LayLeaf(StripAll(b)[i], i) && Strip(CanonAll(b)[i]) == StripAll(b)[i] {
      LeafIsLaid(b[i]);
      StripOfCanon(b[i]);
    }
    if CanonAll(a) == CanonAll(b) {
      assert |a| == |b|;
      forall i | 0 <= i < |a| ensures StripAll(a)[i] == StripAll(b)[i] {
        assert CanonAll(a)[i] == CanonAll(b)[i];
      }
    }
    if StripAll(a) == StripAll(b) {
      assert |a| == |StripAll(a)| == |b|;
      forall i | 0 <= i < |a| ensures CanonAll(a)[i] == CanonAll(b)[i] {
        assert StripAll(a)[i] == StripAll(b)[i];
      }
    }
  }

  // ---------- the operations, on contents ----------

  function KeepLeaves(cs: seq<LeafInfo>, gone: set<u16>): seq<LeafInfo> {
    if cs == [] then []
    else KeepLeaves(cs[..|cs|-1], gone) + (if cs[|cs|-1].id in gone then [] else [cs[|cs|-1]])
  }

  function DropFromAll(cs: seq<LeafInfo>, gone: set<u16>): (r: seq<LeafInfo>)
    ensures |r| == |cs|
  {
    seq(|cs|, i requires 0 <= i < |cs| => cs[i].(servers := Keep(cs[i].servers, gone)))
  }

  function AppendToAll(cs: seq<LeafInfo>, info: ServerInfo, leafID: u16): (r: seq<LeafInfo>)
    ensures |r| == |cs|
  {
    seq(|cs|, i requires 0 <= i < |cs| =>
      if cs[i].id == leafID then cs[i].(servers := cs[i].servers + [info]) else cs[i])
  }

  function Bare(info: LeafInfo): LeafInfo {
    info.(index := 0, servers := [])
  }

  lemma {:induction false} KeepLeavesConcat(a: seq<LeafInfo>, b: seq<LeafInfo>, gone: set<u16>)
    ensures KeepLeaves(a + b, gone) == KeepLeaves(a, gone) + KeepLeaves(b, gone)
  {
    if b == [] {
      assert a + b == a;
    } else {
      var c := a + b;
      assert c[..|c|-1] == a + b[..|b|-1];
      KeepLeavesConcat(a, b[..|b|-1], gone);
    }
  }

  lemma {:induction false} KeepLeavesMembers(cs: seq<LeafInfo>, gone: set<u16>)
    ensures forall c :: c in KeepLeaves(cs, gone) <==> c in cs && c.id !in gone
  {
    if cs != [] {
      var m := |cs| - 1;
      KeepLeavesMembers(cs[..m], gone);
      assert cs == cs[..m] + [cs[m]];
    }
  }

  lemma {:induction false} KeepLeavesAll(cs: seq<LeafInfo>, gone: set<u16>)
    requires forall i | 0 <= i < |cs| :: cs[i].id !in gone
    ensures KeepLeaves(cs, gone) == cs
  {
    if cs != [] {
      KeepLeavesAll(cs[..|cs|-1], gone);
    }
  }

  lemma {:induction false} KeepLeavesTwice(cs: seq<LeafInfo>, a: set<u16>, b: set<u16>)
    ensures KeepLeaves(KeepLeaves(cs, a), b) == KeepLeaves(cs, a + b)
  {
    if cs != [] {
      var m := |cs| - 1;
      KeepLeavesTwice(cs[..m], a, b);
      KeepLeavesConcat(KeepLeaves(cs[..m], a), if cs[m].id in a then [] else [cs[m]], b);
      assert KeepLeaves([cs[m]], b) == if cs[m].id in b then [] else [cs[m]];
    }
  }

  // ---------- each operation keeps a spine well numbered and acts on the contents ----------

  lemma RemoveServerOk(ls: seq<LeafRec>, serverID: u16)
    requires Indexed(ls)
    ensures Indexed(RemoveServer(ls, serverID)) && (SpineOk(ls) ==> SpineOk(RemoveServer(ls, serverID)))
    ensures StripAll(RemoveServer(ls, serverID)) == DropFromAll(StripAll(ls), {serverID})
  {
    forall i | 0 <= i < |ls|
      ensures LeafTiled(ls[i]) ==> LeafTiled(RemoveServer(ls, serverID)[i])
      ensures Strip(RemoveServer(ls, serverID)[i]) == DropFromAll(StripAll(ls), {serverID})[i]
    {
      if HasServer(ls[i], serverID) {
        DropServersTiles(ls[i], {serverID});
      } else {
        forall k | 0 <= k < |ls[i].servers| ensures Contents(ls[i].servers)[k].id != serverID {
          assert ls[i].servers[k].id != serverID;
        }
        KeepAll(Contents(ls[i].servers), {serverID});
      }
    }
  }

  /** The leaf's workers do not number one modulo 2^16. */
  ghost predicate NotOne(ls: seq<LeafRec>, leafID: u16) {
    forall i | 0 <= i < |ls| && ls[i].id == leafID :: Sum16(Contents(ls[i].servers)) != 1
  }

  lemma AppendServerToOk(ls: seq<LeafRec>, info: ServerInfo, leafID: u16)
    requires Indexed(ls)
    ensures Indexed(AppendServerTo(ls, info, leafID))
    ensures SpineOk(ls) && NotOne(ls, leafID) ==> SpineOk(AppendServerTo(ls, info, leafID))
    ensures StripAll(AppendServerTo(ls, info, leafID)) == AppendToAll(StripAll(ls), info, leafID)
  {
    forall i | 0 <= i < |ls|
      ensures LeafTiled(ls[i]) && NotOne(ls, leafID) ==> LeafTiled(AppendServerTo(ls, info, leafID)[i])
      ensures Strip(AppendServerTo(ls, info, leafID)[i]) == AppendToAll(StripAll(ls), info, leafID)[i]
    {
      if ls[i].id == leafID {
        if LeafTiled(ls[i]) {
          AppendServerTilesIff(ls[i], info);
        }
        ContentsOfAppend(ls[i], info);
      }
    }
  }

  lemma {:induction false} DistinctBelow(ids: seq<int>, n: nat)
    requires forall i | 0 <= i < |ids| :: 0 <= ids[i] < n
    requires forall i, j | 0 <= i < j < |ids| :: ids[i] != ids[j]
    ensures |ids| <= n
  {
    if ids != [] {
      assert 0 <= ids[0] < n;
      if k :| 0 <= k < |ids| && ids[k] == n - 1 {
        DistinctBelow(ids[..k] + ids[k+1..], n - 1);
      } else {
        DistinctBelow(ids, n - 1);
      }
    }
  }

  /** Distinct 16-bit IDs: one more leaf always fits, and its position is a 16-bit word. */
  lemma RoomForOneMore(ls: seq<LeafRec>, id: u16)
    requires DistinctLeaves(ls) && !HasLeaf(ls, id)
    ensures |ls| < WORD_SIZE
  {
    var ids := seq(|ls|, i requires 0 <= i < |ls| => ls[i].id as int);
    DistinctBelow(ids + [id], WORD_SIZE);
  }

  lemma AddLeafOk(ls: seq<LeafRec>, info: LeafInfo)
    requires Indexed(ls)
    ensures Indexed(AddLeaf(ls, info)) && (SpineOk(ls) ==> SpineOk(AddLeaf(ls, info)))
    ensures !HasLeaf(ls, info.id) && !AddressTaken(ls, info) ==>
            StripAll(AddLeaf(ls, info)) == StripAll(ls) + [Bare(info)]
  {
    if !HasLeaf(ls, info.id) && !AddressTaken(ls, info) {
      RoomForOneMore(ls, info.id);
      assert LeafTiled(FreshLeaf(info, |ls|)) by { assert Lay([]) == []; assert Contents([]) == []; }
    }
  }

  lemma {:induction false} KeepLeavesButOne(cs: seq<LeafInfo>, k: nat)
    requires k < |cs| && forall i | 0 <= i < |cs| && i != k :: cs[i].id != cs[k].id
    ensures KeepLeaves(cs, {cs[k].id}) == cs[..k] + cs[k+1..]
  {
    var m := |cs| - 1;
    if k == m {
      KeepLeavesAll(cs[..m], {cs[k].id});
    } else {
      KeepLeavesButOne(cs[..m], k);
      assert cs[..m][..k] + cs[..m][k+1..] + [cs[m]] == cs[..k] + cs[k+1..];
    }
  }

  lemma RemoveLeafAt(ls: seq<LeafRec>, leafID: u16, i: nat)
    requires IndexesArePositions(ls) && i < |RemoveLeaf(ls, leafID)|
    requires HasLeaf(ls, leafID)
    ensures Skip(PositionOf(ls, leafID), i) < |ls|
    ensures i < WORD_SIZE && RemoveLeaf(ls, leafID)[i] == ls[Skip(PositionOf(ls, leafID), i)].(index := i)
  {
    var k := PositionOf(ls, leafID);
    assert ls[if i < k then i else i + 1].index == if i < k then i else i + 1;
  }

  lemma IndexIsNotContents(l: LeafRec, index: u16)
    ensures Strip(l.(index := index)) == Strip(l)
    ensures LeafTiled(l) ==> LeafTiled(l.(index := index))
  {
  }

  lemma RemoveLeafContents(ls: seq<LeafRec>, leafID: u16)
    requires Indexed(ls) && HasLeaf(ls, leafID)
    ensures StripAll(RemoveLeaf(ls, leafID)) == KeepLeaves(StripAll(ls), {leafID})
  {
    hide Lay, KeepLeaves, Contents, Sum16, PositionOf;
    var k, cs, r := PositionOf(ls, leafID), StripAll(ls), RemoveLeaf(ls, leafID);
    forall i | 0 <= i < |r| ensures Skip(k, i) < |ls| && Strip(r[i]) == cs[Skip(k, i)] {
      RemoveLeafAt(ls, leafID, i);
      IndexIsNotContents(ls[Skip(k, i)], i);
    }
    KeepLeavesButOne(cs, k);
    assert StripAll(r) == cs[..k] + cs[k+1..];
  }

  /** Index = position is restored for all siblings of a removed leaf. */
  lemma RemoveLeafOk(ls: seq<LeafRec>, leafID: u16)
    requires Indexed(ls)
    ensures Indexed(RemoveLeaf(ls, leafID)) && (SpineOk(ls) ==> SpineOk(RemoveLeaf(ls, leafID)))
    ensures StripAll(RemoveLeaf(ls, leafID)) == KeepLeaves(StripAll(ls), {leafID})
  {
    var k, r := PositionOf(ls, leafID), RemoveLeaf(ls, leafID);
    if k == |ls| {
      KeepLeavesAll(StripAll(ls), {leafID});
    } else {
      forall i | 0 <= i < |r|
        ensures Skip(k, i) < |ls| && r[i].index == i && r[i].id == ls[Skip(k, i)].id
        ensures LeafTiled(ls[Skip(k, i)]) ==> LeafTiled(r[i])
      {
        RemoveLeafAt(ls, leafID, i);
        IndexIsNotContents(ls[Skip(k, i)], i);
      }
      RemoveLeafContents(ls, leafID);
    }
  }
}
