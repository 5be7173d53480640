/** Facts about worker ranges: laying out and reading back, what "tiled" means for one worker ID,
    and which operations keep a leaf tiled. */
module WorkerRanges {
  import opened Words
  import opened TopologySpec

  // ---------- totals ----------

  lemma {:induction false} TotalConcat(a: seq<ServerInfo>, b: seq<ServerInfo>)
    ensures Total(a + b) == Total(a) + Total(b)
  {
    if b == [] {
      assert a + b == a;
    } else {
      var c := a + b;
      assert c[..|c|-1] == a + b[..|b|-1];
      TotalConcat(a, b[..|b|-1]);
    }
  }

  lemma SumAppend(cs: seq<ServerInfo>, c: ServerInfo)
    ensures Sum16(cs + [c]) == Wrap(Sum16(cs) + c.workers)
  {
    assert (cs + [c])[..|cs|] == cs;
  }

  lemma TotalSplit(cs: seq<ServerInfo>, k: nat)
    requires k <= |cs|
    ensures Total(cs) == Total(cs[..k]) + Total(cs[k..])
  {
    TotalConcat(cs[..k], cs[k..]);
    assert cs == cs[..k] + cs[k..];
  }

  lemma TotalStep(cs: seq<ServerInfo>, k: nat)
    requires k < |cs|
    ensures Total(cs[..k+1]) == Total(cs[..k]) + cs[k].workers
  {
    assert cs[..k+1][..k] == cs[..k];
  }

  lemma TotalMonotone(cs: seq<ServerInfo>, j: nat, k: nat)
    requires j <= k <= |cs|
    ensures Total(cs[..j]) <= Total(cs[..k]) <= Total(cs)
  {
    TotalSplit(cs, k);
    TotalSplit(cs[..k], j);
    assert cs[..k][..j] == cs[..j];
  }

  // ---------- laying out and reading back ----------

  lemma CountOfPlace(c: ServerInfo, first: u16)
    ensures InfoOf(Place(c, first)) == c
  {
  }

  /** Worker counts are conserved: reading the layout back gives the servers that were laid out. */
  lemma ContentsOfLay(cs: seq<ServerInfo>)
    ensures Contents(Lay(cs)) == cs
    ensures Tiled(Lay(cs))
  {
    forall i | 0 <= i < |cs| ensures Contents(Lay(cs))[i] == cs[i] {
      CountOfPlace(cs[i], Sum16(cs[..i]));
    }
  }

  /** Server k starts at the number of workers before it and ends count-1 later, modulo 2^16. */
  ghost predicate RangeFollows(ss: seq<ServerRec>, k: nat)
    requires k < |ss|
  {
    && ss[k].first == Trunc(Total(Contents(ss)[..k]))
    && ss[k].last == Wrap(ss[k].first + Count(ss[k]) - 1)
  }

  lemma {:induction false} SumIsTotal(cs: seq<ServerInfo>)
    ensures Sum16(cs) == Trunc(Total(cs))
  {
    if cs != [] {
      SumIsTotal(cs[..|cs|-1]);
      WrapAfterTrunc(Total(cs[..|cs|-1]), cs[|cs|-1].workers);
    }
  }

  lemma PlaceFromFirst(s: ServerRec)
    ensures s == Place(InfoOf(s), s.first)
  {
  }

  lemma RangeAt(ss: seq<ServerRec>, k: nat)
    requires k < |ss|
    ensures RangeFollows(ss, k) <==> ss[k] == Lay(Contents(ss))[k]
  {
    SumIsTotal(Contents(ss)[..k]);
    PlaceFromFirst(ss[k]);
  }

  /** What "tiled" says of each server, in 16-bit arithmetic and with zero-worker servers. */
  lemma TiledMeans(ss: seq<ServerRec>)
    ensures Tiled(ss) <==> forall k | 0 <= k < |ss| :: RangeFollows(ss, k)
  {
    forall k | 0 <= k < |ss| ensures RangeFollows(ss, k) <==> ss[k] == Lay(Contents(ss))[k] {
      RangeAt(ss, k);
    }
    if forall k | 0 <= k < |ss| :: RangeFollows(ss, k) {
      assert forall k | 0 <= k < |ss| :: RangeFollows(ss, k) && ss[k] == Lay(Contents(ss))[k];
    }
  }

  // ---------- ownership of a worker ID ----------

  predicate Owns(s: ServerRec, wid: int) {
    s.first <= wid < s.first + Count(s)
  }

  /** Position of the server a worker falls on. */
  ghost function OwnerIn(cs: seq<ServerInfo>, wid: nat): (k: nat)
    requires wid < Total(cs)
    ensures k < |cs|
    ensures Total(cs[..k]) <= wid < Total(cs[..k]) + cs[k].workers
  {
    var m := |cs| - 1;
    if wid >= Total(cs[..m]) then m
    else
      var k := OwnerIn(cs[..m], wid);
      assert cs[..m][..k] == cs[..k];
      k
  }

  /** Worker `wid` falls on the k-th server when workers are numbered in list order. */
  ghost predicate InSlot(cs: seq<ServerInfo>, k: nat, wid: nat) {
    k < |cs| && Total(cs[..k]) <= wid < Total(cs[..k+1])
  }

  lemma SlotsAreDisjoint(cs: seq<ServerInfo>, j: nat, k: nat, wid: nat)
    requires InSlot(cs, j, wid) && InSlot(cs, k, wid)
    ensures j == k
  {
    if j < k {
      TotalMonotone(cs, j + 1, k);
    } else if k < j {
      TotalMonotone(cs, k + 1, j);
    }
  }

  /** Below 2^16 workers nothing wraps. */
  lemma OwnsIff(ss: seq<ServerRec>, k: nat, wid: nat)
    requires Tiled(ss) && Total(Contents(ss)) < WORD_SIZE && k < |ss|
    ensures Owns(ss[k], wid) <==> InSlot(Contents(ss), k, wid)
    ensures Owns(ss[k], wid) ==> wid < Total(Contents(ss))
  {
    var cs := Contents(ss);
    TotalStep(cs, k);
    TotalMonotone(cs, k, k + 1);
    TotalMonotone(cs, k + 1, |cs|);
    assert cs[k].workers == Count(ss[k]);
    assert ss[k].first == Total(cs[..k]) by {
      assert ss[k] == Lay(cs)[k];
      SumIsTotal(cs[..k]);
    }
  }

  /** No gap and no overlap: below 2^16 workers, every worker ID below the total has exactly one
      owner, and no ID from the total on has any. */
  lemma ExactlyOneOwner(ss: seq<ServerRec>, wid: nat)
    requires Tiled(ss) && Total(Contents(ss)) < WORD_SIZE
    ensures wid < Total(Contents(ss)) <==> exists k | 0 <= k < |ss| :: Owns(ss[k], wid)
    ensures forall j, k | 0 <= j < |ss| && 0 <= k < |ss| && Owns(ss[j], wid) && Owns(ss[k], wid) :: j == k
  {
    var cs := Contents(ss);
    forall k | 0 <= k < |ss|
      ensures Owns(ss[k], wid) <==> InSlot(cs, k, wid)
      ensures Owns(ss[k], wid) ==> wid < Total(cs)
    {
      OwnsIff(ss, k, wid);
    }
    if wid < Total(cs) {
      var k := OwnerIn(cs, wid);
      TotalStep(cs, k);
      assert InSlot(cs, k, wid);
      assert Owns(ss[k], wid);
    }
    forall j, k | 0 <= j < |ss| && 0 <= k < |ss| && Owns(ss[j], wid) && Owns(ss[k], wid) ensures j == k {
      SlotsAreDisjoint(cs, j, k, wid);
    }
  }

  // ---------- removals ----------

  lemma {:induction false} KeepConcat(a: seq<ServerInfo>, b: seq<ServerInfo>, gone: set<u16>)
    ensures Keep(a + b, gone) == Keep(a, gone) + Keep(b, gone)
  {
    if b == [] {
      assert a + b == a;
    } else {
      var c := a + b;
      assert c[..|c|-1] == a + b[..|b|-1];
      KeepConcat(a, b[..|b|-1], gone);
    }
  }

  lemma {:induction false} KeepMembers(cs: seq<ServerInfo>, gone: set<u16>)
    ensures forall c :: c in Keep(cs, gone) <==> c in cs && c.id !in gone
    ensures |Keep(cs, gone)| <= |cs|
  {
    if cs != [] {
      var m := |cs| - 1;
      KeepMembers(cs[..m], gone);
      assert cs == cs[..m] + [cs[m]];
    }
  }

  lemma {:induction false} KeepDistinct(cs: seq<ServerInfo>, gone: set<u16>)
    requires DistinctInfos(cs)
    ensures DistinctInfos(Keep(cs, gone))
  {
    if cs != [] {
      var m := |cs| - 1;
      KeepDistinct(cs[..m], gone);
      KeepMembers(cs[..m], gone);
      var r := Keep(cs[..m], gone);
      forall i | 0 <= i < |r| ensures r[i].id != cs[m].id {
        assert r[i] in cs[..m];
      }
    }
  }

  lemma {:induction false} KeepAll(cs: seq<ServerInfo>, gone: set<u16>)
    requires forall i | 0 <= i < |cs| :: cs[i].id !in gone
    ensures Keep(cs, gone) == cs
  {
    if cs != [] {
      KeepAll(cs[..|cs|-1], gone);
    }
  }

  /** Dropping servers in two rounds is dropping them in one. */
  lemma {:induction false} KeepKeep(cs: seq<ServerInfo>, a: set<u16>, b: set<u16>)
    ensures Keep(Keep(cs, a), b) == Keep(cs, a + b)
  {
    if cs != [] {
      var m := |cs| - 1;
      KeepKeep(cs[..m], a, b);
      KeepConcat(Keep(cs[..m], a), if cs[m].id in a then [] else [cs[m]], b);
      assert Keep([cs[m]], b) == if cs[m].id in b then [] else [cs[m]];
    }
  }

  function Skip(k: nat, i: nat): nat {
    if i < k then i else i + 1
  }

  /** Dropping the only server with an ID splices it out. */
  lemma {:induction false} KeepAllButOne(cs: seq<ServerInfo>, k: nat)
    requires k < |cs| && forall i | 0 <= i < |cs| && i != k :: cs[i].id != cs[k].id
    ensures Keep(cs, {cs[k].id}) == cs[..k] + cs[k+1..]
  {
    var m := |cs| - 1;
    if k == m {
      KeepAll(cs[..m], {cs[k].id});
    } else {
      KeepAllButOne(cs[..m], k);
      assert cs[..m][..k] + cs[..m][k+1..] + [cs[m]] == cs[..k] + cs[k+1..];
    }
  }

  lemma SplicePrefix<T>(cs: seq<T>, k: nat, q: nat)
    requires k < |cs| && q < |cs| - 1
    ensures (cs[..k] + cs[k+1..])[q] == cs[Skip(k, q)]
    ensures (cs[..k] + cs[k+1..])[..q] == if q < k then cs[..q] else cs[..q+1][..k] + cs[..q+1][k+1..]
  {
  }

  lemma KeptPrefix(cs: seq<ServerInfo>, k: nat, q: nat)
    requires k < |cs| && (forall i | 0 <= i < |cs| && i != k :: cs[i].id != cs[k].id) && q < |cs| - 1
    ensures |Keep(cs, {cs[k].id})| == |cs| - 1
    ensures Keep(cs, {cs[k].id})[q] == cs[Skip(k, q)]
    ensures Keep(cs, {cs[k].id})[..q] == Keep(cs[..Skip(k, q)], {cs[k].id})
  {
    hide Keep;
    KeepAllButOne(cs, k);
    SplicePrefix(cs, k, q);
    if q < k {
      KeepAll(cs[..q], {cs[k].id});
    } else {
      KeepAllButOne(cs[..q+1], k);
    }
  }

  lemma KeepSnoc(cs: seq<ServerInfo>, k: nat, id: u16)
    requires k < |cs|
    ensures Keep(cs[..k+1], {id}) == if cs[k].id == id then Keep(cs[..k], {id}) else Keep(cs[..k], {id}) + [cs[k]]
  {
    assert cs[..k+1][..k] == cs[..k];
  }

  lemma SumStep(a: seq<ServerInfo>, b: seq<ServerInfo>, c: ServerInfo, id: u16)
    requires b == if c.id == id then a else a + [c]
    ensures Sum16(b) == if c.id == id then Sum16(a) else Wrap(Sum16(a) + c.workers)
  {
    SumAppend(a, c);
  }

  /** The next free worker ID after the first k servers, as the loop of RemoveServer computes it when
      it passes over the server `id`. */
  function StartOf(cs: seq<ServerInfo>, id: u16, k: nat): u16
    requires k <= |cs|
  {
    if k == 0 then 0
    else if cs[k-1].id == id then StartOf(cs, id, k - 1)
    else Wrap(StartOf(cs, id, k - 1) + cs[k-1].workers)
  }

  lemma StartStep(cs: seq<ServerInfo>, id: u16, k: nat)
    requires 0 < k <= |cs|
    ensures StartOf(cs, id, k) ==
            if cs[k-1].id == id then StartOf(cs, id, k - 1) else Wrap(StartOf(cs, id, k - 1) + cs[k-1].workers)
  {
  }

  lemma StartOfNone(cs: seq<ServerInfo>, id: u16)
    ensures StartOf(cs, id, 0) == Sum16(Keep(cs[..0], {id}))
  {
  }

  lemma {:induction false} StartIsSum(cs: seq<ServerInfo>, id: u16, k: nat)
    requires k <= |cs|
    ensures StartOf(cs, id, k) == Sum16(Keep(cs[..k], {id}))
  {
    hide Keep, Sum16, StartOf, Wrap;
    if k == 0 {
      StartOfNone(cs, id);
    } else {
      StartIsSum(cs, id, k - 1);
      StartStep(cs, id, k);
      KeepSnoc(cs, k - 1, id);
      SumStep(Keep(cs[..k-1], {id}), Keep(cs[..k], {id}), cs[k-1], id);
    }
  }

  /** Records that follow the running count around server k are the new layout, in list order. */
  lemma LaidAround(now: seq<ServerRec>, cs: seq<ServerInfo>, k: nat)
    requires k < |cs| && (forall i | 0 <= i < |cs| && i != k :: cs[i].id != cs[k].id) && |now| == |cs| - 1
    requires forall q | 0 <= q < |now| :: now[q] == Place(cs[Skip(k, q)], StartOf(cs, cs[k].id, Skip(k, q)))
    ensures now == Lay(Keep(cs, {cs[k].id}))
    ensures StartOf(cs, cs[k].id, |cs|) == Sum16(Keep(cs, {cs[k].id}))
  {
    KeepAllButOne(cs, k);
    forall q | 0 <= q < |now| ensures now[q] == Lay(Keep(cs, {cs[k].id}))[q] {
      StartIsSum(cs, cs[k].id, Skip(k, q));
      KeptPrefix(cs, k, q);
    }
    StartIsSum(cs, cs[k].id, |cs|);
    assert cs[..|cs|] == cs;
  }

  lemma {:induction false} KeepTotal(cs: seq<ServerInfo>, gone: set<u16>)
    ensures Total(Keep(cs, gone)) <= Total(cs)
  {
    if cs != [] {
      var m := |cs| - 1;
      KeepTotal(cs[..m], gone);
      TotalConcat(Keep(cs[..m], gone), if cs[m].id in gone then [] else [cs[m]]);
    }
  }

  /** A removal re-tiles the survivors and conserves each of their worker counts. */
  lemma DropServersTiles(l: LeafRec, gone: set<u16>)
    ensures LeafTiled(DropServers(l, gone))
    ensures Contents(DropServers(l, gone).servers) == Keep(Contents(l.servers), gone)
  {
    ContentsOfLay(Keep(Contents(l.servers), gone));
  }

  /** Removing one set and then another leaves the same leaf as removing both at once. */
  lemma DropServersCompose(l: LeafRec, a: set<u16>, b: set<u16>)
    ensures DropServers(DropServers(l, a), b) == DropServers(l, a + b)
  {
    var m := DropServers(l, a);
    DropServersTiles(l, a);
    KeepKeep(Contents(l.servers), a, b);
    assert Keep(Contents(m.servers), b) == Keep(Contents(l.servers), a + b);
  }

  // ---------- additions ----------

  lemma LayPrefix(cs: seq<ServerInfo>, info: ServerInfo)
    ensures Lay(cs + [info]) == Lay(cs) + [Place(info, Sum16(cs))]
  {
    var ds := cs + [info];
    assert ds[..|cs|] == cs;
    forall i | 0 <= i < |cs| ensures Lay(ds)[i] == Lay(cs)[i] {
      assert ds[..i] == cs[..i];
    }
  }

  lemma ContentsOfAppend(l: LeafRec, info: ServerInfo)
    ensures Contents(AppendServer(l, info).servers) == Contents(l.servers) + [info]
  {
    CountOfPlace(info, NextWorkerID(l.last));
  }

  lemma AddedIsPlaced(last: u16, total: u16, info: ServerInfo)
    requires LastEncodes(last, total)
    ensures Added(last, info) == Place(info, total) <==> total != 1
    ensures total != 1 ==> LastEncodes(Added(last, info).last, Wrap(total + info.workers))
  {
  }

  /** Adding a server keeps the leaf tiled exactly when its workers do not number 1 modulo 2^16:
      a stored end of 0 is read as "no workers", and that is what a single worker also stores. */
  lemma AppendServerTilesIff(l: LeafRec, info: ServerInfo)
    requires LeafTiled(l)
    ensures LeafTiled(AppendServer(l, info)) <==> Sum16(Contents(l.servers)) != 1
  {
    var cs := Contents(l.servers);
    var added, placed := Added(l.last, info), Place(info, Sum16(cs));
    assert Contents(AppendServer(l, info).servers) == cs + [info] by { ContentsOfAppend(l, info); }
    assert Lay(cs + [info]) == Lay(cs) + [placed] by { LayPrefix(cs, info); }
    assert Sum16(cs + [info]) == Wrap(Sum16(cs) + info.workers) by { SumAppend(cs, info); }
    assert l.servers + [added] == Lay(cs) + [placed] <==> added == placed by {
      assert (l.servers + [added])[|cs|] == added && (Lay(cs) + [placed])[|cs|] == placed;
    }
    AddedIsPlaced(l.last, Sum16(cs), info);
  }

  lemma AppendTiledIff(l: LeafRec, info: ServerInfo)
    ensures Tiled(AppendServer(l, info).servers) <==>
            Tiled(l.servers) && Added(l.last, info) == Place(info, Sum16(Contents(l.servers)))
  {
    hide Lay, Added;
    var cs, ss, added := Contents(l.servers), l.servers, Added(l.last, info);
    var placed := Place(info, Sum16(cs));
    ContentsOfAppend(l, info);
    LayPrefix(cs, info);
    assert (ss + [added])[..|ss|] == ss && (Lay(cs) + [placed])[..|ss|] == Lay(cs);
    assert (ss + [added])[|ss|] == added && (Lay(cs) + [placed])[|ss|] == placed;
  }

  /** Servers that are not tiled stay so when one is added behind them. */
  lemma UntiledStays(l: LeafRec, info: ServerInfo)
    requires !Tiled(l.servers)
    ensures !Tiled(AppendServer(l, info).servers)
  {
    AppendTiledIff(l, info);
  }

  /** And what the missed test does is not only in the stored end: the servers themselves overlap. */
  lemma AppendAtOneUntiles(l: LeafRec, info: ServerInfo)
    requires LeafTiled(l) && Sum16(Contents(l.servers)) == 1
    ensures !Tiled(AppendServer(l, info).servers)
  {
    AppendTiledIff(l, info);
    AddedIsPlaced(l.last, 1, info);
  }

  /** The failing input: the second server of a leaf with one worker is given that worker's ID. */
  lemma SecondServerOverlaps(l: LeafRec, first: ServerInfo, second: ServerInfo)
    requires l.servers == [] && l.last == 0 && first.workers == 1
    ensures var ss := AppendServer(AppendServer(l, first), second).servers;
            |ss| == 2 && ss[0].first == ss[0].last == 0 && ss[1].first == 0
  {
  }

  /** Both encodings of a worker-less leaf lead to the same next range. */
  lemma EmptyEncodingsAgree(l: LeafRec, info: ServerInfo)
    ensures AppendServer(l.(last := 0), info) == AppendServer(l.(last := 65535), info)
  {
  }

  /** With no one-worker server and fewer than 2^16 workers the bad case never arises. */
  lemma SumIsNotOne(cs: seq<ServerInfo>)
    requires Total(cs) < WORD_SIZE
    requires forall i | 0 <= i < |cs| :: cs[i].workers != 1
    ensures Sum16(cs) != 1
  {
    SumIsTotal(cs);
    TotalIsNotOne(cs);
  }

  lemma {:induction false} TotalIsNotOne(cs: seq<ServerInfo>)
    requires forall i | 0 <= i < |cs| :: cs[i].workers != 1
    ensures Total(cs) != 1
  {
    if cs != [] {
      TotalIsNotOne(cs[..|cs|-1]);
    }
  }
}
