/** The forwarding table of a leaf switch, kept up to date incrementally (ctrl_mgr/cp.go): after a
    change only the servers that were reported as changed have their rows written. */
module LeafTables {
  import opened Words
  import opened TopologySpec
  import opened WorkerRanges
  import opened FailedBatch

  const MAX_VCLUSTER_WORKERS := 16

  /** Egress port and destination address of a worker. */
  datatype Row = Row(port: nat, mac: string)

  /** forward_horus_switch_dst, keyed by destination ID and pool ID. */
  type Forward = map<(u16, u16), Row>

  function Key(leafID: u16, wid: u16): (u16, u16) {
    (Trunc(leafID * MAX_VCLUSTER_WORKERS + wid), leafID)
  }

  function RowOf(s: ServerRec): Row {
    Row(s.port.devPort, s.address)
  }

  /** How often the loop from the first to the last worker ID runs. */
  function RowCount(s: ServerRec): nat {
    if s.first <= s.last then s.last - s.first + 1 else 0
  }

  /** The rows of the first n workers of a server. */
  function WriteRows(t: Forward, leafID: u16, s: ServerRec, n: nat): Forward
    requires n <= RowCount(s)
  {
    if n == 0 then t else WriteRows(t, leafID, s, n - 1)[Key(leafID, s.first + n - 1) := RowOf(s)]
  }

  function WriteServers(t: Forward, leafID: u16, ss: seq<ServerRec>): Forward {
    if ss == [] then t
    else WriteRows(WriteServers(t, leafID, ss[..|ss|-1]), leafID, ss[|ss|-1], RowCount(ss[|ss|-1]))
  }

  /** The leaf, its forwarding table, and the number of workers the data plane was told of. */
  datatype LeafState = LeafState(leaf: LeafRec, fwd: Forward, count: u16)

  /** All rows, then the rows that lead upstream. */
  function Init(leaf: LeafRec, upstream: Forward): LeafState {
    LeafState(leaf, WriteServers(map[], leaf.id, leaf.servers) + upstream, Sum16(Contents(leaf.servers)))
  }

  function OnServerChange(s: LeafState, updated: seq<ServerRec>): LeafState {
    s.(fwd := WriteServers(s.fwd, s.leaf.id, updated), count := Sum16(Contents(s.leaf.servers)))
  }

  // ---------- single rows ----------

  /** Distinct worker IDs never share a key. */
  lemma KeyInjective(leafID: u16, a: u16, b: u16)
    ensures Key(leafID, a) == Key(leafID, b) <==> a == b
  {
  }

  /** The ranges are tiled, below 2^16 workers, and the table loops end. */
  ghost predicate Wf(l: LeafRec) {
    && LeafTiled(l)
    && DistinctInfos(Contents(l.servers))
    && Total(Contents(l.servers)) < WORD_SIZE
    && FirstHasWorker(Contents(l.servers))
  }

  /** The leaf is empty or its first server has a worker. */
  predicate FirstHasWorker(cs: seq<ServerInfo>) {
    cs == [] || cs[0].workers > 0
  }

  /** Below 2^16 workers the ranges are those of unbounded arithmetic. */
  lemma FirstIsTotal(l: LeafRec, k: nat)
    requires LeafTiled(l) && Total(Contents(l.servers)) < WORD_SIZE && k < |l.servers|
    ensures var s, before := l.servers[k], Total(Contents(l.servers)[..k]);
            s.first == before && before + Count(s) < WORD_SIZE && s.last == Wrap(before + Count(s) - 1)
  {
    var cs := Contents(l.servers);
    TotalStep(cs, k);
    TotalMonotone(cs, k + 1, |cs|);
    assert cs[..|cs|] == cs;
    assert l.servers[k] == Lay(cs)[k];
    SumIsTotal(cs[..k]);
  }

  lemma RangeOf(l: LeafRec, k: nat)
    requires Wf(l) && k < |l.servers|
    ensures l.servers[k].last < WORD_SIZE - 1 && RowCount(l.servers[k]) == Count(l.servers[k])
    ensures forall wid :: Owns(l.servers[k], wid) <==> l.servers[k].first <= wid <= l.servers[k].last
  {
    FirstIsTotal(l, k);
    if k > 0 {
      FirstCounts(Contents(l.servers), k);
    }
  }

  lemma FirstCounts(cs: seq<ServerInfo>, k: nat)
    requires 0 < k <= |cs| && FirstHasWorker(cs)
    ensures Total(cs[..k]) > 0
  {
    TotalStep(cs, 0);
    TotalMonotone(cs, 1, k);
  }

  lemma {:induction false} WriteRowsAt(t: Forward, leafID: u16, s: ServerRec, n: nat, wid: u16)
    requires n <= RowCount(s)
    ensures s.first <= wid < s.first + n ==>
              Key(leafID, wid) in WriteRows(t, leafID, s, n) && WriteRows(t, leafID, s, n)[Key(leafID, wid)] == RowOf(s)
    ensures !(s.first <= wid < s.first + n) ==>
              (Key(leafID, wid) in WriteRows(t, leafID, s, n) <==> Key(leafID, wid) in t) &&
              (Key(leafID, wid) in t ==> WriteRows(t, leafID, s, n)[Key(leafID, wid)] == t[Key(leafID, wid)])
  {
    if n > 0 {
      WriteRowsAt(t, leafID, s, n - 1, wid);
      KeyInjective(leafID, wid, s.first + n - 1);
    }
  }

  /** The rows of a server of the leaf are those of its workers, and no other server's. */
  lemma InRangeOf(l: LeafRec, k: nat, s: ServerRec, wid: u16)
    requires Wf(l) && k < |l.servers| && Owns(l.servers[k], wid) && s in l.servers
    ensures s.first <= wid < s.first + RowCount(s) <==> s == l.servers[k]
  {
    var j :| 0 <= j < |l.servers| && l.servers[j] == s;
    RangeOf(l, j);
    RangeOf(l, k);
    ExactlyOneOwner(l.servers, wid);
  }

  /** A worker's row after writing some of the leaf's servers: that of its owner if the owner is among
      them, otherwise what it was. */
  lemma {:induction false} WriteServersAt(t: Forward, l: LeafRec, ss: seq<ServerRec>, k: nat, wid: u16)
    requires Wf(l) && k < |l.servers| && Owns(l.servers[k], wid)
    requires forall s | s in ss :: s in l.servers
    ensures var key, now := Key(l.id, wid), WriteServers(t, l.id, ss);
            if l.servers[k] in ss then key in now && now[key] == RowOf(l.servers[k])
            else (key in now <==> key in t) && (key in t ==> now[key] == t[key])
  {
    hide Wf, Owns, RowCount, Key, RowOf;
    if ss != [] {
      var most, s := ss[..|ss|-1], ss[|ss|-1];
      assert ss == most + [s] && s in ss;
      WriteServersAt(t, l, most, k, wid);
      InRangeOf(l, k, s, wid);
      WriteRowsAt(WriteServers(t, l.id, most), l.id, s, RowCount(s), wid);
    }
  }

  // ---------- when the loops over worker IDs end ----------

  /** The 16-bit loop variable has passed the last worker ID after n rounds. */
  ghost predicate EndsAfter(s: ServerRec, n: nat) {
    Trunc(s.first + n) > s.last
  }

  ghost predicate LoopEnds(s: ServerRec) {
    exists n: nat :: EndsAfter(s, n)
  }

  /** A last worker ID of 65535 is never passed. Otherwise the loop ends, after RowCount rounds. */
  lemma LoopEndsIff(s: ServerRec)
    ensures LoopEnds(s) <==> s.last != WORD_SIZE - 1
    ensures LoopEnds(s) ==> EndsAfter(s, RowCount(s)) && forall n: nat | n < RowCount(s) :: !EndsAfter(s, n)
  {
    if s.last != WORD_SIZE - 1 {
      assert EndsAfter(s, RowCount(s));
    }
  }

  /** Every loop over the servers of a tiled leaf ends if and only if the leaf is empty or its first
      server has a worker. */
  lemma LoopsOfLeafEndIff(l: LeafRec)
    requires LeafTiled(l) && DistinctInfos(Contents(l.servers)) && Total(Contents(l.servers)) < WORD_SIZE
    ensures (forall k | 0 <= k < |l.servers| :: LoopEnds(l.servers[k])) <==> FirstHasWorker(Contents(l.servers))
  {
    hide LoopEnds, Lay, Total, LeafTiled;
    if FirstHasWorker(Contents(l.servers)) {
      forall k | 0 <= k < |l.servers| ensures LoopEnds(l.servers[k]) {
        RangeOf(l, k);
        LoopEndsIff(l.servers[k]);
      }
    } else {
      WorkerlessFirstLoops(l);
    }
  }

  lemma WorkerlessFirstLoops(l: LeafRec)
    requires LeafTiled(l) && Total(Contents(l.servers)) < WORD_SIZE && !FirstHasWorker(Contents(l.servers))
    ensures |l.servers| > 0 && !LoopEnds(l.servers[0])
  {
    FirstIsTotal(l, 0);
    assert Contents(l.servers)[..0] == [];
    assert Contents(l.servers)[0].workers == Count(l.servers[0]);
    LoopEndsIff(l.servers[0]);
  }

  /** The failing input: a server without workers added to an empty leaf. */
  lemma WorkerlessFirstServerLoops(l: LeafRec, info: ServerInfo)
    requires l.servers == [] && l.last == 0 && info.workers == 0
    ensures var s := AppendServer(l, info).servers[0];
            s.first == 0 && s.last == WORD_SIZE - 1 && forall n: nat :: !EndsAfter(s, n)
  {
  }

  // ---------- the table as a whole ----------

  /** Every live worker's row holds the port and address of the server that owns it. */
  ghost predicate Correct(t: Forward, l: LeafRec) {
    forall k: nat, wid: u16 | k < |l.servers| && Owns(l.servers[k], wid) ::
      Key(l.id, wid) in t && t[Key(l.id, wid)] == Row(l.servers[k].port.devPort, l.servers[k].address)
  }

  ghost predicate CorrectBut(t: Forward, l: LeafRec, ss: seq<ServerRec>) {
    forall k: nat, wid: u16 | k < |l.servers| && l.servers[k] !in ss && Owns(l.servers[k], wid) ::
      Key(l.id, wid) in t && t[Key(l.id, wid)] == RowOf(l.servers[k])
  }

  lemma WritingTheRestIsEnough(t: Forward, l: LeafRec, ss: seq<ServerRec>)
    requires Wf(l) && CorrectBut(t, l, ss) && forall s | s in ss :: s in l.servers
    ensures Correct(WriteServers(t, l.id, ss), l)
  {
    forall k: nat, wid: u16 | k < |l.servers| && Owns(l.servers[k], wid)
      ensures var now := WriteServers(t, l.id, ss); Key(l.id, wid) in now && now[Key(l.id, wid)] == RowOf(l.servers[k])
    {
      WriteServersAt(t, l, ss, k, wid);
    }
  }

  /** An upstream row with a live worker's key says what the worker's row says. */
  ghost predicate Agrees(upstream: Forward, l: LeafRec) {
    forall k: nat, wid: u16 | k < |l.servers| && Owns(l.servers[k], wid) && Key(l.id, wid) in upstream ::
      upstream[Key(l.id, wid)] == RowOf(l.servers[k])
  }

  /** Init writes the upstream rows last, so the live rows are right exactly if none is overwritten
      with something else. */
  lemma InitIsCorrectIff(l: LeafRec, upstream: Forward)
    requires Wf(l)
    ensures Correct(Init(l, upstream).fwd, l) <==> Agrees(upstream, l)
  {
    WritingTheRestIsEnough(map[], l, l.servers);
  }

  // ---------- servers come and go ----------

  datatype Event =
    | Add(info: ServerInfo)
    // Servers fail, one or a batch; their survivors are reported in some order.
    | Fail(ids: seq<u16>, order: seq<u16>)

  ghost predicate Enabled(s: LeafState, e: Event) {
    var cs := Contents(s.leaf.servers);
    match e
    case Add(info) =>
      Addable(cs, info) && Total(cs) != 1
    case Fail(ids, order) =>
      && (forall i, j | 0 <= i < j < |ids| :: ids[i] != ids[j])
      && ToSet(ids) <= AllIds(cs)
      && FirstHasWorker(Keep(cs, ToSet(ids)))
      && ToSet(order) == FailAll(s.leaf, ids).updated
  }

  /** A new ID, room for the workers, and loops that end. */
  ghost predicate Addable(cs: seq<ServerInfo>, info: ServerInfo) {
    info.id !in AllIds(cs) && Total(cs) + info.workers < WORD_SIZE && FirstHasWorker(cs + [info])
  }

  /** The records of the reported servers, as they are when the message is handled. */
  ghost function RecordsOf(l: LeafRec, ids: seq<u16>): seq<ServerRec> {
    if ids == [] then []
    else RecordsOf(l, ids[..|ids|-1]) + RecordsWith(l, ids[|ids|-1])
  }

  ghost function RecordsWith(l: LeafRec, id: u16): (r: seq<ServerRec>)
    ensures forall s | s in r :: s in l.servers && s.id == id
    ensures id in AllIds(Contents(l.servers)) ==> |r| == 1
  {
    if id in AllIds(Contents(l.servers)) then
      var k :| 0 <= k < |Contents(l.servers)| && Contents(l.servers)[k].id == id;
      [l.servers[k]]
    else []
  }

  /** A change and the table update it triggers. An empty report triggers none. */
  ghost function Step(s: LeafState, e: Event): LeafState {
    match e
    case Add(info) =>
      var leaf := AppendServer(s.leaf, info);
      OnServerChange(s.(leaf := leaf), [leaf.servers[|s.leaf.servers|]])
    case Fail(ids, order) =>
      var leaf := FailAll(s.leaf, ids).leaf;
      if order == [] then s.(leaf := leaf) else OnServerChange(s.(leaf := leaf), RecordsOf(leaf, order))
  }

  ghost predicate Inv(s: LeafState) {
    Wf(s.leaf) && Correct(s.fwd, s.leaf)
  }

  lemma WfAfterAdd(l: LeafRec, info: ServerInfo)
    requires Wf(l) && Addable(Contents(l.servers), info) && Total(Contents(l.servers)) != 1
    ensures Wf(AppendServer(l, info)) && AppendServer(l, info).id == l.id
    ensures AppendServer(l, info).servers[..|l.servers|] == l.servers &&
            |AppendServer(l, info).servers| == |l.servers| + 1
    ensures AppendServer(l, info).servers[|l.servers|].id == info.id
  {
    hide Lay, Sum16, Key, Owns;
    var cs := Contents(l.servers);
    SumIsTotal(cs);
    AppendServerTilesIff(l, info);
    ContentsOfAppend(l, info);
    assert Contents(AppendServer(l, info).servers) == cs + [info];
    TotalConcat(cs, [info]);
  }

  lemma AddKeepsInv(s: LeafState, info: ServerInfo)
    requires Inv(s) && Enabled(s, Add(info))
    ensures Inv(Step(s, Add(info)))
  {
    hide Lay, Sum16, Key, Owns, AppendServer, Wf;
    var leaf, n := AppendServer(s.leaf, info), |s.leaf.servers|;
    WfAfterAdd(s.leaf, info);
    assert CorrectBut(s.fwd, leaf, [leaf.servers[n]]) by {
      assert forall k | 0 <= k < n :: leaf.servers[k] == leaf.servers[..n][k] == s.leaf.servers[k];
    }
    WritingTheRestIsEnough(s.fwd, leaf, [leaf.servers[n]]);
  }

  /** Adding a server is right exactly if the leaf does not have one worker in all. */
  lemma AddIsRightIff(s: LeafState, info: ServerInfo)
    requires Inv(s) && Addable(Contents(s.leaf.servers), info)
    ensures Inv(Step(s, Add(info))) <==> Total(Contents(s.leaf.servers)) != 1
  {
    if Total(Contents(s.leaf.servers)) != 1 {
      AddKeepsInv(s, info);
    } else {
      SumIsTotal(Contents(s.leaf.servers));
      AppendServerTilesIff(s.leaf, info);
    }
  }

  /** The failing input: the one worker of a leaf loses its row to the first worker of a new server. */
  lemma OneWorkerLosesItsRow(s: LeafState, info: ServerInfo)
    requires Inv(s) && |s.leaf.servers| == 1 && Count(s.leaf.servers[0]) == 1 && info.workers == 1
    ensures Owns(s.leaf.servers[0], 0)
    ensures var now := Step(s, Add(info)); var key := Key(now.leaf.id, 0);
            && Owns(now.leaf.servers[0], 0) && Owns(now.leaf.servers[1], 0)
            && key in now.fwd && now.fwd[key] == Row(info.port.devPort, info.address)
  {
    var cs, now := Contents(s.leaf.servers), Step(s, Add(info));
    assert s.leaf.servers[0] == Lay(cs)[0] && cs[..0] == [];
    assert cs[..|cs|-1] == [] && Sum16(cs) == 1;
    var added := now.leaf.servers[1];
    assert [added][..0] == [];
    WriteRowsAt(s.fwd, s.leaf.id, added, RowCount(added), 0);
  }

  lemma PrefixKept(cs: seq<ServerInfo>, gone: set<u16>, n: nat)
    requires n <= |cs| && forall i | 0 <= i < n :: cs[i].id !in gone
    ensures n <= |Keep(cs, gone)| && Keep(cs, gone)[..n] == cs[..n]
  {
    KeepAll(cs[..n], gone);
    KeepConcat(cs[..n], cs[n..], gone);
    assert cs == cs[..n] + cs[n..];
  }

  lemma NoneFailedBefore(cs: seq<ServerInfo>, gone: set<u16>, j: nat)
    requires j < |cs| && cs[j].id !in gone && cs[j].id !in Moved(cs, gone)
    ensures forall i | 0 <= i < j :: cs[i].id !in gone
  {
    forall i | 0 <= i < j ensures cs[i].id !in gone {
      assert Before(cs, cs[i].id, cs[j].id);
    }
  }

  /** A survivor with no failed server before it keeps its place. */
  lemma UnmovedPlace(cs: seq<ServerInfo>, gone: set<u16>, q: nat)
    requires DistinctInfos(cs) && q < |Keep(cs, gone)| && Keep(cs, gone)[q].id !in Moved(cs, gone)
    ensures q < |cs| && Keep(cs, gone)[..q+1] == cs[..q+1]
  {
    hide Keep, Moved;
    var kept := Keep(cs, gone);
    KeepMembers(cs, gone);
    assert kept[q] in kept;
    var j :| 0 <= j < |cs| && cs[j] == kept[q];
    NoneFailedBefore(cs, gone, j);
    PrefixKept(cs, gone, j + 1);
    KeepDistinct(cs, gone);
    assert kept[j] == kept[..j+1][j] == cs[..j+1][j] == cs[j];
  }

  /** And so it keeps its range. */
  lemma UnmovedStays(l: LeafRec, gone: set<u16>, q: nat)
    requires LeafTiled(l) && DistinctInfos(Contents(l.servers))
    requires q < |Keep(Contents(l.servers), gone)|
    requires Keep(Contents(l.servers), gone)[q].id !in Moved(Contents(l.servers), gone)
    ensures q < |l.servers| && DropServers(l, gone).servers[q] == l.servers[q]
  {
    hide Keep, Moved, DistinctInfos, Sum16;
    var cs := Contents(l.servers);
    var kept := Keep(cs, gone);
    UnmovedPlace(cs, gone, q);
    assert kept[..q+1][..q] == kept[..q] && cs[..q+1][..q] == cs[..q];
    assert kept[q] == kept[..q+1][q] == cs[..q+1][q] == cs[q];
    assert l.servers[q] == Lay(cs)[q];
  }

  lemma WfAfterDrop(l: LeafRec, gone: set<u16>)
    requires Wf(l) && FirstHasWorker(Keep(Contents(l.servers), gone))
    ensures Wf(DropServers(l, gone))
  {
    hide Lay, Keep, Key, Owns, DropServers;
    DropServersTiles(l, gone);
    KeepDistinct(Contents(l.servers), gone);
    KeepTotal(Contents(l.servers), gone);
  }

  lemma SameIdSameServer(l: LeafRec, j: nat, k: nat)
    requires Wf(l) && j < |l.servers| && k < |l.servers| && l.servers[j].id == l.servers[k].id
    ensures j == k
  {
    var cs := Contents(l.servers);
    assert cs[j].id == cs[k].id;
  }

  lemma {:induction false} InReport(l: LeafRec, order: seq<u16>, k: nat)
    requires Wf(l) && k < |l.servers| && l.servers[k].id in ToSet(order)
    ensures l.servers[k] in RecordsOf(l, order)
  {
    var most, id := order[..|order|-1], order[|order|-1];
    assert Contents(l.servers)[k].id == l.servers[k].id;
    if id == l.servers[k].id {
      var r := RecordsWith(l, id);
      assert r[0] in l.servers;
      var j :| 0 <= j < |l.servers| && l.servers[j] == r[0];
      SameIdSameServer(l, j, k);
    } else {
      var i :| 0 <= i < |order| && order[i] == l.servers[k].id;
      assert most[i] == order[i];
      InReport(l, most, k);
    }
  }

  lemma {:induction false} RecordsAreServers(l: LeafRec, order: seq<u16>)
    ensures forall s | s in RecordsOf(l, order) :: s in l.servers
  {
    if order != [] {
      RecordsAreServers(l, order[..|order|-1]);
    }
  }

  /** Only servers whose range moved are missing from the old rows. */
  lemma OthersAreCorrect(s: LeafState, ids: seq<u16>, order: seq<u16>)
    requires Inv(s) && Enabled(s, Fail(ids, order)) && ids != []
    ensures Wf(FailAll(s.leaf, ids).leaf)
    ensures CorrectBut(s.fwd, FailAll(s.leaf, ids).leaf, RecordsOf(FailAll(s.leaf, ids).leaf, order))
  {
    BatchOutcome(s.leaf, ids);
    var gone, leaf := ToSet(ids), FailAll(s.leaf, ids).leaf;
    WfAfterDrop(s.leaf, gone);
    DropServersTiles(s.leaf, gone);
    forall k: nat, wid: u16 | k < |leaf.servers| && leaf.servers[k] !in RecordsOf(leaf, order) &&
      Owns(leaf.servers[k], wid)
      ensures Key(leaf.id, wid) in s.fwd && s.fwd[Key(leaf.id, wid)] == RowOf(leaf.servers[k])
    {
      var id := leaf.servers[k].id;
      assert Contents(leaf.servers)[k].id == id;
      if id in ToSet(order) {
        InReport(leaf, order, k);
      } else {
        UnmovedStays(s.leaf, gone, k);
      }
    }
  }

  lemma FailKeepsInv(s: LeafState, ids: seq<u16>, order: seq<u16>)
    requires Inv(s) && Enabled(s, Fail(ids, order))
    ensures Inv(Step(s, Fail(ids, order)))
  {
    BatchOutcome(s.leaf, ids);
    var leaf := FailAll(s.leaf, ids).leaf;
    if ids == [] {
      NothingReported(s.leaf, order);
    } else {
      OthersAreCorrect(s, ids, order);
      var us := RecordsOf(leaf, order);
      if order != [] {
        RecordsAreServers(leaf, order);
        WritingTheRestIsEnough(s.fwd, leaf, us);
      } else {
        assert us == [];
      }
    }
  }

  lemma FirstIsIn(ids: seq<u16>)
    requires ids != []
    ensures ids[0] in ToSet(ids)
  {
  }

  lemma NothingReported(l: LeafRec, order: seq<u16>)
    requires ToSet(order) == FailAll(l, []).updated
    ensures order == []
  {
    if order != [] {
      FirstIsIn(order);
    }
  }

  // ---------- messages that are handled late ----------

  /** No live worker has a row of the server, unless its row is just that. */
  ghost predicate Harmless(l: LeafRec, r: ServerRec) {
    forall k: nat, wid: u16 | k < |l.servers| && Owns(l.servers[k], wid) ::
      r.first <= wid < r.first + RowCount(r) ==> RowOf(l.servers[k]) == RowOf(r)
  }

  /** A message carries the record of a server that may have been removed since it was sent. Handling it
      keeps the tables right exactly if it gives no live worker another server's row. */
  lemma LateRecordIff(s: LeafState, r: ServerRec)
    requires Inv(s)
    ensures Correct(OnServerChange(s, [r]).fwd, s.leaf) <==> Harmless(s.leaf, r)
  {
    hide Wf, Lay;
    assert [r][..0] == [];
    assert WriteServers(s.fwd, s.leaf.id, []) == s.fwd;
    var l, now := s.leaf, WriteRows(s.fwd, s.leaf.id, r, RowCount(r));
    assert OnServerChange(s, [r]).fwd == now;
    forall k: nat, wid: u16 | k < |l.servers| && Owns(l.servers[k], wid)
      ensures r.first <= wid < r.first + RowCount(r) && Correct(now, l) ==> RowOf(l.servers[k]) == RowOf(r)
    {
      WriteRowsAt(s.fwd, l.id, r, RowCount(r), wid);
    }
    forall k: nat, wid: u16 | k < |l.servers| && Owns(l.servers[k], wid)
      ensures Harmless(l, r) ==> Key(l.id, wid) in now && now[Key(l.id, wid)] == RowOf(l.servers[k])
    {
      WriteRowsAt(s.fwd, l.id, r, RowCount(r), wid);
    }
  }

  /** The failing input: the late message is about a server that had the first worker IDs, before it
      failed and another server got them. */
  lemma LateRecordTakesRows(s: LeafState, r: ServerRec)
    requires Inv(s) && s.leaf.servers != []
    requires r.first == 0 && r.last < WORD_SIZE - 1 && RowOf(r) != RowOf(s.leaf.servers[0])
    ensures !Correct(OnServerChange(s, [r]).fwd, s.leaf)
  {
    RangeOf(s.leaf, 0);
    FirstIsTotal(s.leaf, 0);
    assert Contents(s.leaf.servers)[..0] == [];
    assert Contents(s.leaf.servers)[0].workers == Count(s.leaf.servers[0]);
    assert Owns(s.leaf.servers[0], 0) && r.first <= 0 < r.first + RowCount(r);
    LateRecordIff(s, r);
  }

  // ---------- over whole runs ----------

  ghost function Run(s: LeafState, es: seq<Event>): LeafState {
    if es == [] then s else Step(Run(s, es[..|es|-1]), es[|es|-1])
  }

  /** Each event is enabled when it happens. */
  ghost predicate Possible(s: LeafState, es: seq<Event>) {
    es == [] || (Possible(s, es[..|es|-1]) && Enabled(Run(s, es[..|es|-1]), es[|es|-1]))
  }

  lemma StepKeepsInv(s: LeafState, e: Event)
    requires Inv(s) && Enabled(s, e)
    ensures Inv(Step(s, e))
  {
    match e
    case Add(info) => AddKeepsInv(s, info);
    case Fail(ids, order) => FailKeepsInv(s, ids, order);
  }

  lemma {:induction false} RunKeepsInv(s: LeafState, es: seq<Event>)
    requires Inv(s) && Possible(s, es)
    ensures Inv(Run(s, es))
  {
    if es != [] {
      RunKeepsInv(s, es[..|es|-1]);
      StepKeepsInv(Run(s, es[..|es|-1]), es[|es|-1]);
    }
  }

  /** What a fresh Init writes for a live worker. */
  lemma FreshRow(l: LeafRec, upstream: Forward, k: nat, wid: u16)
    requires Wf(l) && k < |l.servers| && Owns(l.servers[k], wid)
    ensures var key := Key(l.id, wid);
            && key in Init(l, upstream).fwd
            && Init(l, upstream).fwd[key] == if key in upstream then upstream[key] else RowOf(l.servers[k])
  {
    WriteServersAt(map[], l, l.servers, k, wid);
  }

  /** However servers came and went, the row of every live worker ID (and these are the IDs below the
      total) is that of its one owner. A fresh Init of the leaf as it is now would write the same row,
      unless it would overwrite it with a different upstream row. */
  lemma IncrementalEqualsRebuild(leaf: LeafRec, upstream: Forward, es: seq<Event>, wid: u16)
    requires Wf(leaf) && Agrees(upstream, leaf)
    requires Possible(Init(leaf, upstream), es)
    requires wid < Total(Contents(Run(Init(leaf, upstream), es).leaf.servers))
    ensures var now := Run(Init(leaf, upstream), es);
            var key, rebuilt := Key(now.leaf.id, wid), Init(now.leaf, upstream).fwd;
            exists k :: 0 <= k < |now.leaf.servers| && Owns(now.leaf.servers[k], wid) &&
              key in now.fwd && now.fwd[key] == Row(now.leaf.servers[k].port.devPort, now.leaf.servers[k].address) &&
              key in rebuilt &&
              (now.fwd[key] == rebuilt[key] <==> (key in upstream ==> upstream[key] == now.fwd[key]))
  {
    hide Run, Init, Wf, Owns, Agrees;
    var now := Run(Init(leaf, upstream), es);
    StartInv(leaf, upstream);
    RunKeepsInv(Init(leaf, upstream), es);
    var k := OneOwner(now.leaf, wid);
    FreshRow(now.leaf, upstream, k, wid);
  }

  lemma StartInv(leaf: LeafRec, upstream: Forward)
    requires Wf(leaf) && Agrees(upstream, leaf)
    ensures Inv(Init(leaf, upstream))
  {
    InitIsCorrectIff(leaf, upstream);
  }

  lemma OneOwner(l: LeafRec, wid: u16) returns (k: nat)
    requires Wf(l) && wid < Total(Contents(l.servers))
    ensures k < |l.servers| && Owns(l.servers[k], wid)
  {
    ExactlyOneOwner(l.servers, wid);
    k :| 0 <= k < |l.servers| && Owns(l.servers[k], wid);
  }

  // ---------- the worker count ----------

  ghost predicate CountIsLive(s: LeafState) {
    s.count == Total(Contents(s.leaf.servers))
  }

  /** The workers that a batch takes away. */
  ghost function Lost(cs: seq<ServerInfo>, gone: set<u16>): int {
    Total(cs) - Total(Keep(cs, gone))
  }

  /** The count is right after every update of the tables. A failure leaves it right exactly if it
      takes no workers away or moves some survivor. If only servers at the end of the list failed,
      nobody moved, no update is triggered, and the data plane keeps the old, too large, count. */
  lemma CountIsLiveIff(s: LeafState, e: Event)
    requires Inv(s) && Enabled(s, e) && CountIsLive(s)
    ensures CountIsLive(Step(s, e)) <==>
            (e.Fail? && Lost(Contents(s.leaf.servers), ToSet(e.ids)) != 0 ==>
             Moved(Contents(s.leaf.servers), ToSet(e.ids)) != {})
  {
    hide Lay, Keep, Key, Owns, DropServers, Moved;
    StepKeepsInv(s, e);
    SumIsTotal(Contents(Step(s, e).leaf.servers));
    if e.Fail? {
      BatchOutcome(s.leaf, e.ids);
      EmptyReportIff(e.order);
    }
  }

  lemma EmptyReportIff(order: seq<u16>)
    ensures order == [] <==> ToSet(order) == {}
  {
    if order != [] {
      FirstIsIn(order);
    }
  }

  lemma NoneFailedInPrefix(cs: seq<ServerInfo>, gone: set<u16>)
    requires DistinctInfos(cs) && Keep(cs, gone) <= cs
    ensures forall i, j | 0 <= i < j < |cs| && cs[j].id !in gone :: cs[i].id !in gone
  {
    var kept := Keep(cs, gone);
    KeepMembers(cs, gone);
    forall i, j | 0 <= i < j < |cs| && cs[j].id !in gone ensures cs[i].id !in gone {
      assert cs[j] in kept;
      var q :| 0 <= q < |kept| && kept[q] == cs[j];
      assert kept[q] == cs[q];
      assert kept[i] == cs[i] && kept[i] in kept;
    }
  }

  /** Nobody moves exactly if the failed servers are the end of the list. */
  lemma NobodyMovesIff(cs: seq<ServerInfo>, gone: set<u16>)
    requires DistinctInfos(cs)
    ensures Moved(cs, gone) == {} <==> Keep(cs, gone) <= cs
  {
    var kept := Keep(cs, gone);
    if Moved(cs, gone) == {} {
      KeepMembers(cs, gone);
      forall q | 0 <= q < |kept| ensures kept[q] == cs[q] {
        UnmovedPlace(cs, gone, q);
        assert kept[q] == kept[..q+1][q] == cs[..q+1][q];
      }
    }
    if kept <= cs {
      NoneFailedInPrefix(cs, gone);
    }
  }

  /** The failing input: the last server of the list fails, and its workers are still counted. */
  lemma LastServerIsStillCounted(s: LeafState)
    requires Inv(s) && CountIsLive(s) && s.leaf.servers != []
    requires var n := |s.leaf.servers|; Count(s.leaf.servers[n-1]) > 0
    ensures var e := Fail([s.leaf.servers[|s.leaf.servers|-1].id], []);
            Enabled(s, e) && !CountIsLive(Step(s, e))
  {
    hide Lay, Key, Owns, DropServers, Moved, RecordsOf;
    var cs, n := Contents(s.leaf.servers), |s.leaf.servers|;
    var ids := [s.leaf.servers[n-1].id];
    var gone := ToSet(ids);
    assert gone == {cs[n-1].id} by { FirstIsIn(ids); }
    KeepAllButOne(cs, n - 1);
    assert Keep(cs, gone) == cs[..n-1];
    NobodyMovesIff(cs, gone);
    BatchOutcome(s.leaf, ids);
    EmptyReportIff([]);
    TotalStep(cs, n - 1);
    assert cs[..n] == cs;
    CountIsLiveIff(s, Fail(ids, []));
  }

  // ---------- which servers a run leaves ----------

  /** A change of servers: the new one comes last, the others stay in order. */
  lemma ContentsAfter(s: LeafState, e: Event)
    requires Wf(s.leaf) && Enabled(s, e)
    ensures Wf(Step(s, e).leaf)
    ensures var cs := Contents(s.leaf.servers);
            Contents(Step(s, e).leaf.servers) == if e.Add? then cs + [e.info] else Keep(cs, ToSet(e.ids))
  {
    hide Lay, Sum16, Key, Owns, AppendServer, DropServers, FailAll, Keep, Moved, RecordsOf;
    match e
    case Add(info) =>
      WfAfterAdd(s.leaf, info);
      ContentsOfAppend(s.leaf, info);
    case Fail(ids, _) =>
      BatchOutcome(s.leaf, ids);
      if ids == [] {
        KeepAll(Contents(s.leaf.servers), ToSet(ids));
      } else {
        WfAfterDrop(s.leaf, ToSet(ids));
      }
  }

  lemma {:induction false} RunKeepsWf(s: LeafState, es: seq<Event>)
    requires Wf(s.leaf) && Possible(s, es)
    ensures Wf(Run(s, es).leaf)
  {
    hide Wf, Step, Enabled;
    if es != [] {
      RunKeepsWf(s, es[..|es|-1]);
      ContentsAfter(Run(s, es[..|es|-1]), es[|es|-1]);
    }
  }

  ghost predicate NeverFails(es: seq<Event>, id: u16) {
    forall m | 0 <= m < |es| && es[m].Fail? :: id !in ToSet(es[m].ids)
  }

  ghost predicate AddedAndStayed(es: seq<Event>, c: ServerInfo) {
    exists k | 0 <= k < |es| :: StaysFrom(es, c, k)
  }

  ghost predicate StaysFrom(es: seq<Event>, c: ServerInfo, k: nat)
    requires k < |es|
  {
    es[k] == Add(c) && NeverFails(es[k+1..], c.id)
  }

  /** After a run the leaf has just those servers that it had or got, and that have not failed since. */
  lemma {:induction false} ServersOfRun(s: LeafState, es: seq<Event>, c: ServerInfo)
    requires Wf(s.leaf) && Possible(s, es)
    ensures c in Contents(Run(s, es).leaf.servers) <==>
            (c in Contents(s.leaf.servers) && NeverFails(es, c.id)) || AddedAndStayed(es, c)
  {
    hide Wf, Step, Enabled, Contents;
    if es != [] {
      var most, e := es[..|es|-1], es[|es|-1];
      ServersOfRun(s, most, c);
      RunKeepsWf(s, most);
      ContentsAfter(Run(s, most), e);
      if e.Fail? {
        KeepMembers(Contents(Run(s, most).leaf.servers), ToSet(e.ids));
      }
      OneMoreEvent(es, c);
    }
  }

  lemma OneMoreEvent(es: seq<Event>, c: ServerInfo)
    requires es != []
    ensures var most, e := es[..|es|-1], es[|es|-1];
            var stays := e.Fail? ==> c.id !in ToSet(e.ids);
            && (NeverFails(es, c.id) <==> NeverFails(most, c.id) && stays)
            && (AddedAndStayed(es, c) <==> e == Add(c) || (AddedAndStayed(most, c) && stays))
  {
    var most, e := es[..|es|-1], es[|es|-1];
    forall k | 0 <= k < |most|
      ensures StaysFrom(es, c, k) <==> StaysFrom(most, c, k) && (e.Fail? ==> c.id !in ToSet(e.ids))
    {
      var a, b := es[k+1..], most[k+1..];
      assert a == b + [e];
      assert a[|b|] == e && forall m | 0 <= m < |b| :: a[m] == b[m];
    }
    assert forall m | 0 <= m < |most| :: most[m] == es[m];
    assert es[|most|+1..] == [];
    assert e == Add(c) ==> StaysFrom(es, c, |most|);
    if AddedAndStayed(es, c) && !AddedAndStayed(most, c) {
      var k :| 0 <= k < |es| && StaysFrom(es, c, k);
    }
    if AddedAndStayed(most, c) && (e.Fail? ==> c.id !in ToSet(e.ids)) {
      var k :| 0 <= k < |most| && StaysFrom(most, c, k);
      assert StaysFrom(es, c, k);
    }
  }

  // ---------- the worker count over runs ----------

  /** The workers lost since the tables were last updated. */
  ghost function LostSinceUpdate(s: LeafState, es: seq<Event>): int {
    if es == [] then 0
    else
      var most, e := es[..|es|-1], es[|es|-1];
      if e.Fail? && e.order == []
      then LostSinceUpdate(s, most) + Lost(Contents(Run(s, most).leaf.servers), ToSet(e.ids))
      else 0
  }

  /** Over whole runs the count exceeds the live total by exactly what was lost since the last update. */
  lemma {:induction false} CountOverRuns(s: LeafState, es: seq<Event>)
    requires Wf(s.leaf) && Possible(s, es) && CountIsLive(s)
    ensures Run(s, es).count == Total(Contents(Run(s, es).leaf.servers)) + LostSinceUpdate(s, es)
    ensures CountIsLive(Run(s, es)) <==> LostSinceUpdate(s, es) == 0
  {
    hide Lay, Keep, Key, Owns, DropServers, Moved, RecordsOf;
    if es != [] {
      var mid, e := Run(s, es[..|es|-1]), es[|es|-1];
      CountOverRuns(s, es[..|es|-1]);
      RunKeepsWf(s, es[..|es|-1]);
      ContentsAfter(mid, e);
      SumIsTotal(Contents(Step(mid, e).leaf.servers));
    }
  }

  /** Init reports the workers there are. */
  lemma InitCountIsLive(leaf: LeafRec, upstream: Forward)
    requires Total(Contents(leaf.servers)) < WORD_SIZE
    ensures Init(leaf, upstream).count == Total(Contents(leaf.servers))
  {
    SumIsTotal(Contents(leaf.servers));
  }

  /** So from Init on: the reported count is the live total and what was lost since the last update. */
  lemma CountFromInit(leaf: LeafRec, upstream: Forward, es: seq<Event>)
    requires Wf(leaf) && Possible(Init(leaf, upstream), es)
    ensures var s := Init(leaf, upstream); var now := Run(s, es);
            now.count == Total(Contents(now.leaf.servers)) + LostSinceUpdate(s, es)
  {
    hide Init;
    InitCountIsLive(leaf, upstream);
    InitKeepsLeaf(leaf, upstream);
    CountOverRuns(Init(leaf, upstream), es);
  }

  lemma InitKeepsLeaf(leaf: LeafRec, upstream: Forward)
    ensures Init(leaf, upstream).leaf == leaf
  {
  }
}
