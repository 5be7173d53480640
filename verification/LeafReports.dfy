/** The leaf's forwarding table when the reports about changed servers queue up and are handled in any order
    (ctrl_mgr/leafBus.go). A report about servers that moved names their nodes; the range that is written is
    the one the node has when its rows are written, and a node that was removed keeps the range it had last.
    The message about a new server has only its ID; the node is looked up when the message is handled, and
    dereferenced even if it is gone. */
module LeafReports {
  import opened Words
  import opened TopologySpec
  import opened WorkerRanges
  import opened FailedBatch
  import opened LeafTables
  import opened Histories

  /** The leaf, its table, the servers that were removed, the servers in the reports under way, as often as
      they are named, those in the messages about new servers, and whether a missing node was dereferenced. */
  datatype State = State(leaf: LeafRec, fwd: Forward, gone: map<u16, ServerRec>, pending: multiset<u16>,
                         joining: set<u16>, crashed: bool)

  datatype Event =
    | Joins(info: ServerInfo)
    | Fails(ids: seq<u16>)   // one server or a batch
    | Handles(id: u16)       // the rows of one reported server are written
    | HandlesNew(id: u16)    // the message about a new server is handled

  /** The servers of a batch as they are when their turn comes. */
  ghost function Removed(leaf: LeafRec, ids: seq<u16>): map<u16, ServerRec> {
    if ids == [] then map[]
    else
      var most, id := ids[..|ids|-1], ids[|ids|-1];
      var rs := RecordsWith(FailAll(leaf, most).leaf, id);
      if rs == [] then Removed(leaf, most) else Removed(leaf, most)[id := rs[0]]
  }

  predicate IsThere(s: State, id: u16) {
    id in AllIds(Contents(s.leaf.servers))
  }

  /** The node as it is now. */
  ghost function NodeOf(s: State, id: u16): seq<ServerRec> {
    if IsThere(s, id) then RecordsWith(s.leaf, id) else if id in s.gone then [s.gone[id]] else []
  }

  ghost predicate Enabled(s: State, e: Event) {
    var cs := Contents(s.leaf.servers);
    match e
    case Joins(info) => Addable(cs, info) && Total(cs) != 1 && info.id !in s.gone && info.id !in s.joining
    case Fails(ids) =>
      && (forall i, j | 0 <= i < j < |ids| :: ids[i] != ids[j])
      && ToSet(ids) <= AllIds(cs) && FirstHasWorker(Keep(cs, ToSet(ids)))
    case Handles(id) => id in s.pending
    case HandlesNew(id) => id in s.joining
  }

  ghost function Write(s: State, id: u16): Forward {
    var ns := NodeOf(s, id);
    if ns == [] then s.fwd else WriteRows(s.fwd, s.leaf.id, ns[0], RowCount(ns[0]))
  }

  ghost function Step(s: State, e: Event): State {
    match e
    case Joins(info) => s.(leaf := AppendServer(s.leaf, info), joining := s.joining + {info.id})
    case Fails(ids) =>
      var b := FailAll(s.leaf, ids);
      s.(leaf := b.leaf, gone := s.gone + Removed(s.leaf, ids), pending := s.pending + multiset(b.updated))
    case Handles(id) => s.(fwd := Write(s, id), pending := s.pending - multiset{id})
    case HandlesNew(id) =>
      if IsThere(s, id) then s.(fwd := Write(s, id), joining := s.joining - {id})
      else s.(joining := s.joining - {id}, crashed := true)
  }

  ghost function Run(s: State, es: seq<Event>): State {
    if es == [] then s else Step(Run(s, es[..|es|-1]), es[|es|-1])
  }

  ghost predicate Possible(s: State, es: seq<Event>) {
    es == [] || (Possible(s, es[..|es|-1]) && Enabled(Run(s, es[..|es|-1]), es[|es|-1]))
  }

  // ---------- who wrote a row last ----------

  /** The row of a worker ID was last written for a server that was there, or for one that was gone. */
  datatype Last = InTime | TooLate(row: Row)

  predicate HasNode(s: State, e: Event) {
    e.Handles? || (e.HandlesNew? && IsThere(s, e.id))
  }

  ghost predicate Writes(s: State, e: Event, wid: u16) {
    && HasNode(s, e) && NodeOf(s, e.id) != []
    && var n := NodeOf(s, e.id)[0]; n.first <= wid < n.first + RowCount(n)
  }

  ghost function After(s: State, e: Event, wid: u16, last: Last): Last {
    if !Writes(s, e, wid) then last
    else if IsThere(s, e.id) then InTime
    else TooLate(RowOf(NodeOf(s, e.id)[0]))
  }

  ghost function LastAt(s: State, es: seq<Event>, wid: u16): Last {
    if es == [] then InTime
    else After(Run(s, es[..|es|-1]), es[|es|-1], wid, LastAt(s, es[..|es|-1], wid))
  }

  ghost function Lasts(s: State, es: seq<Event>): (last: imap<u16, Last>)
    ensures forall wid: u16 :: wid in last
  {
    imap wid: u16 :: LastAt(s, es, wid)
  }

  // ---------- the invariant ----------

  /** The worker's server is in a report or a message under way, or its row is right, or it was written too late. */
  ghost predicate RowOk(s: State, last: imap<u16, Last>, k: nat, wid: u16)
    requires k < |s.leaf.servers| && forall w: u16 :: w in last
  {
    var key := Key(s.leaf.id, wid);
    || s.leaf.servers[k].id in s.pending || s.leaf.servers[k].id in s.joining
    || (key in s.fwd && s.fwd[key] == if last[wid].InTime? then RowOf(s.leaf.servers[k]) else last[wid].row)
  }

  ghost predicate Inv(s: State, last: imap<u16, Last>) {
    && Wf(s.leaf) && s.gone.Keys !! AllIds(Contents(s.leaf.servers)) && (forall w: u16 :: w in last)
    && forall k: nat, wid: u16 | k < |s.leaf.servers| && Owns(s.leaf.servers[k], wid) :: RowOk(s, last, k, wid)
  }

  lemma AddKeepsInv(s: State, info: ServerInfo, last: imap<u16, Last>)
    requires Inv(s, last) && Enabled(s, Joins(info))
    ensures Inv(Step(s, Joins(info)), last)
  {
    hide AppendServer, Wf, Key, Owns, Lay;
    var now := Step(s, Joins(info));
    WfAfterAdd(s.leaf, info);
    ContentsOfAppend(s.leaf, info);
    IdsOfAppended(Contents(s.leaf.servers), info);
    forall k: nat, wid: u16 | k < |now.leaf.servers| && Owns(now.leaf.servers[k], wid)
      ensures RowOk(now, last, k, wid) {
      if k < |s.leaf.servers| {
        assert now.leaf.servers[k] == now.leaf.servers[..|s.leaf.servers|][k] == s.leaf.servers[k];
        assert RowOk(s, last, k, wid);
      }
    }
  }

  lemma IdsOfAppended(cs: seq<ServerInfo>, info: ServerInfo)
    ensures AllIds(cs + [info]) == AllIds(cs) + {info.id}
  {
    var more := cs + [info];
    assert more[|cs|].id == info.id;
    forall id | id in AllIds(cs) ensures id in AllIds(more) {
      var i :| 0 <= i < |cs| && cs[i].id == id;
      assert more[i].id == id;
    }
  }

  lemma FailKeepsInv(s: State, ids: seq<u16>, last: imap<u16, Last>)
    requires Inv(s, last) && Enabled(s, Fails(ids))
    ensures Inv(Step(s, Fails(ids)), last)
  {
    hide Wf, Key, Owns, Lay, Keep, Moved, DropServers, FailAll, RecordsWith;
    var cs, dead, now := Contents(s.leaf.servers), ToSet(ids), Step(s, Fails(ids));
    BatchFacts(s.leaf, ids);
    DistinctInWf(s.leaf);
    RemovedKeys(s.leaf, ids);
    forall k: nat, wid: u16 | k < |now.leaf.servers| && Owns(now.leaf.servers[k], wid)
      ensures RowOk(now, last, k, wid) {
      if now.leaf.servers[k].id !in FailAll(s.leaf, ids).updated {
        Unreported(s.leaf, ids, k);
        assert RowOk(s, last, k, wid);
      }
    }
  }

  lemma BatchFacts(l: LeafRec, ids: seq<u16>)
    requires Wf(l) && (forall i, j | 0 <= i < j < |ids| :: ids[i] != ids[j])
    requires ToSet(ids) <= AllIds(Contents(l.servers)) && FirstHasWorker(Keep(Contents(l.servers), ToSet(ids)))
    ensures var now := FailAll(l, ids).leaf;
            && Wf(now) && now.id == l.id
            && AllIds(Contents(now.servers)) == AllIds(Contents(l.servers)) - ToSet(ids)
  {
    BatchOutcome(l, ids);
    KeptIds(Contents(l.servers), ToSet(ids));
    if ids != [] {
      WfAfterDrop(l, ToSet(ids));
    }
  }

  /** A survivor that is not reported is where it was. */
  lemma Unreported(l: LeafRec, ids: seq<u16>, k: nat)
    requires Wf(l) && (forall i, j | 0 <= i < j < |ids| :: ids[i] != ids[j])
    requires ToSet(ids) <= AllIds(Contents(l.servers))
    requires k < |FailAll(l, ids).leaf.servers| && FailAll(l, ids).leaf.servers[k].id !in FailAll(l, ids).updated
    ensures k < |l.servers| && FailAll(l, ids).leaf.servers[k] == l.servers[k]
  {
    hide Keep, Moved, DropServers, Lay;
    BatchOutcome(l, ids);
    if ids != [] {
      DropServersTiles(l, ToSet(ids));
      assert Contents(FailAll(l, ids).leaf.servers)[k].id == FailAll(l, ids).leaf.servers[k].id;
      UnmovedStays(l, ToSet(ids), k);
    }
  }

  lemma HandleKeepsInv(s: State, e: Event, was: imap<u16, Last>, now: imap<u16, Last>)
    requires Inv(s, was) && HasNode(s, e) && Enabled(s, e) && (forall w: u16 :: w in now)
    requires forall w: u16 :: now[w] == After(s, e, w, was[w])
    ensures Inv(Step(s, e), now)
  {
    hide Wf, Key, Owns, Lay, RecordsWith, RowOf, RowCount, AllIds;
    var after, id := Step(s, e), e.id;
    forall k: nat, wid: u16 | k < |s.leaf.servers| && Owns(s.leaf.servers[k], wid) ensures RowOk(after, now, k, wid) {
      assert RowOk(s, was, k, wid);
      NodeFacts(s, e, k, wid);
      if NodeOf(s, id) != [] {
        WriteRowsAt(s.fwd, s.leaf.id, NodeOf(s, id)[0], RowCount(NodeOf(s, id)[0]), wid);
      }
    }
  }

  /** The node that is written, against a worker of the leaf. */
  lemma NodeFacts(s: State, e: Event, k: nat, wid: u16)
    requires HasNode(s, e) && Wf(s.leaf) && k < |s.leaf.servers| && Owns(s.leaf.servers[k], wid)
    ensures IsThere(s, e.id) ==> (Writes(s, e, wid) <==> s.leaf.servers[k].id == e.id)
    ensures IsThere(s, e.id) && s.leaf.servers[k].id == e.id ==> NodeOf(s, e.id)[0] == s.leaf.servers[k]
    ensures s.leaf.servers[k].id == e.id ==> IsThere(s, e.id)
  {
    hide Wf, Owns, Lay, RowCount;
    assert Contents(s.leaf.servers)[k].id == s.leaf.servers[k].id;
    if IsThere(s, e.id) {
      var n := NodeOf(s, e.id)[0];
      assert n in NodeOf(s, e.id);
      InRangeOf(s.leaf, k, n, wid);
      var j :| 0 <= j < |s.leaf.servers| && s.leaf.servers[j] == n;
      if s.leaf.servers[k].id == e.id {
        SameIdSameServer(s.leaf, j, k);
      }
    }
  }

  // ---------- over whole runs ----------

  lemma {:induction false} RunKeepsInv(s: State, es: seq<Event>)
    requires Inv(s, Lasts(s, [])) && Possible(s, es)
    ensures Inv(Run(s, es), Lasts(s, es))
  {
    hide Inv, Step, Enabled, Writes;
    if es != [] {
      var most, e := es[..|es|-1], es[|es|-1];
      RunKeepsInv(s, most);
      match e
      case Joins(info) =>
        NothingWritten(s, es);
        AddKeepsInv(Run(s, most), info, Lasts(s, most));
      case Fails(ids) =>
        NothingWritten(s, es);
        FailKeepsInv(Run(s, most), ids, Lasts(s, most));
      case Handles(id) => HandleKeepsInv(Run(s, most), e, Lasts(s, most), Lasts(s, es));
      case HandlesNew(id) =>
        if IsThere(Run(s, most), id) {
          HandleKeepsInv(Run(s, most), e, Lasts(s, most), Lasts(s, es));
        } else {
          NothingWritten(s, es);
          CrashKeepsInv(Run(s, most), id, Lasts(s, most));
        }
    }
  }

  lemma CrashKeepsInv(s: State, id: u16, last: imap<u16, Last>)
    requires Inv(s, last) && !IsThere(s, id)
    ensures Inv(Step(s, HandlesNew(id)), last)
  {
    hide Wf, Key, Owns, Lay, RecordsWith, RowOf;
    var now := Step(s, HandlesNew(id));
    forall k: nat, wid: u16 | k < |s.leaf.servers| && Owns(s.leaf.servers[k], wid) ensures RowOk(now, last, k, wid) {
      assert RowOk(s, last, k, wid);
      assert Contents(s.leaf.servers)[k].id == s.leaf.servers[k].id;
    }
  }

  lemma NothingWritten(s: State, es: seq<Event>)
    requires es != [] && !HasNode(Run(s, es[..|es|-1]), es[|es|-1])
    ensures Lasts(s, es) == Lasts(s, es[..|es|-1])
  {
  }

  /** The tables are right and nothing is under way. */
  ghost predicate Settled(s: State) {
    Wf(s.leaf) && Correct(s.fwd, s.leaf) && s.gone == map[] && s.pending == multiset{} && s.joining == {} && !s.crashed
  }

  predicate Drained(s: State) {
    s.pending == multiset{} && s.joining == {}
  }

  /** No live worker's row was last written for a server that was gone by then and has another row. */
  ghost predicate NoneTaken(s: State, es: seq<Event>) {
    var l := Run(s, es).leaf;
    forall k: nat, wid: u16 | k < |l.servers| && Owns(l.servers[k], wid) ::
      LastAt(s, es, wid).TooLate? ==> LastAt(s, es, wid).row == RowOf(l.servers[k])
  }

  /** Servers come and go, and the reports are handled in any order and however late. Once all of them have
      been handled, every live worker's row is right if and only if none was last written for a server
      that was gone by then and has another row. CrashIff says which runs get there. */
  lemma RightAtQuiescenceIff(s: State, es: seq<Event>)
    requires Settled(s) && Possible(s, es) && Drained(Run(s, es))
    ensures Correct(Run(s, es).fwd, Run(s, es).leaf) <==> NoneTaken(s, es)
  {
    hide Wf, Key, Owns;
    var now := Run(s, es);
    StartInv(s);
    RunKeepsInv(s, es);
    forall k: nat, wid: u16 | k < |now.leaf.servers| && Owns(now.leaf.servers[k], wid)
      ensures RowOk(now, Lasts(s, es), k, wid)
    {
    }
  }

  lemma StartInv(s: State)
    requires Settled(s)
    ensures Inv(s, Lasts(s, []))
  {
    hide Wf, Key, Owns, Lay;
    forall wid: u16 ensures Lasts(s, [])[wid] == InTime {
    }
  }

  /** In particular if no report is handled that names a server that has gone. */
  lemma {:induction false} InTimeIsRight(s: State, es: seq<Event>)
    requires Settled(s) && Possible(s, es) && Drained(Run(s, es))
    requires forall k | 0 <= k < |es| && es[k].Handles? :: IsThere(Run(s, es[..k]), es[k].id)
    ensures Correct(Run(s, es).fwd, Run(s, es).leaf)
  {
    forall wid: u16 ensures LastAt(s, es, wid).InTime? {
      NeverTooLate(s, es, wid);
    }
    RightAtQuiescenceIff(s, es);
  }

  lemma {:induction false} NeverTooLate(s: State, es: seq<Event>, wid: u16)
    requires forall k | 0 <= k < |es| && es[k].Handles? :: IsThere(Run(s, es[..k]), es[k].id)
    ensures LastAt(s, es, wid).InTime?
  {
    if es != [] {
      var most := es[..|es|-1];
      forall k | 0 <= k < |most| && most[k].Handles? ensures IsThere(Run(s, most[..k]), most[k].id) {
        assert most[..k] == es[..k];
      }
      NeverTooLate(s, most, wid);
    }
  }

  // ---------- missing nodes ----------

  /** A server fails while the message about its arrival is under way. */
  ghost predicate FailsEarly(s: State, e: Event) {
    e.Fails? && exists id | id in e.ids :: id in s.joining
  }

  ghost predicate SomeFailsEarly(s: State, es: seq<Event>) {
    exists k | 0 <= k < |es| :: FailsEarly(Run(s, es[..k]), es[k])
  }

  lemma SomeSnoc(s: State, es: seq<Event>)
    requires es != []
    ensures SomeFailsEarly(s, es) <==>
            SomeFailsEarly(s, es[..|es|-1]) || FailsEarly(Run(s, es[..|es|-1]), es[|es|-1])
  {
    hide Step, FailsEarly;
    var most, m := es[..|es|-1], |es| - 1;
    forall k | 0 <= k < |most|
      ensures FailsEarly(Run(s, most[..k]), most[k]) <==> FailsEarly(Run(s, es[..k]), es[k])
    {
      assert most[..k] == es[..k];
    }
    if SomeFailsEarly(s, most) {
      var k :| 0 <= k < |most| && FailsEarly(Run(s, most[..k]), most[k]);
      assert FailsEarly(Run(s, es[..k]), es[k]);
    }
  }

  ghost predicate SomeIsMissing(s: State) {
    exists id | id in s.joining :: !IsThere(s, id)
  }

  lemma MissingAfter(s: State, e: Event)
    requires Wf(s.leaf) && Enabled(s, e)
    ensures var now := Step(s, e);
            now.crashed || SomeIsMissing(now) <==> s.crashed || SomeIsMissing(s) || FailsEarly(s, e)
  {
    hide Wf, AppendServer, FailAll, Lay, Keep, RecordsWith;
    match e
    case Joins(info) =>
      ContentsOfAppend(s.leaf, info);
      IdsOfAppended(Contents(s.leaf.servers), info);
    case Fails(ids) => BatchFacts(s.leaf, ids);
    case Handles(id) => assert forall x :: IsThere(Step(s, e), x) == IsThere(s, x);
    case HandlesNew(id) =>
      assert forall x :: IsThere(Step(s, e), x) == IsThere(s, x);
      assert !IsThere(s, id) ==> SomeIsMissing(s);
  }

  lemma {:induction false} CrashedOrMissing(s: State, es: seq<Event>)
    requires Inv(s, Lasts(s, [])) && Possible(s, es) && !s.crashed && s.joining == {}
    ensures Run(s, es).crashed || SomeIsMissing(Run(s, es)) <==> SomeFailsEarly(s, es)
  {
    hide Step, Enabled, FailsEarly, RowOk;
    if es != [] {
      var most := es[..|es|-1];
      CrashedOrMissing(s, most);
      RunKeepsInv(s, most);
      MissingAfter(Run(s, most), es[|es|-1]);
      SomeSnoc(s, es);
    }
  }

  /** Once all messages have been handled, a missing node was dereferenced if and only if some server failed
      while the message about its arrival was under way. */
  lemma CrashIff(s: State, es: seq<Event>)
    requires Settled(s) && Possible(s, es) && Drained(Run(s, es))
    ensures Run(s, es).crashed <==> SomeFailsEarly(s, es)
  {
    StartInv(s);
    CrashedOrMissing(s, es);
  }

  // ---------- which servers a run leaves ----------

  /** The new server comes last, and the others stay in order. */
  lemma ContentsAfter(s: State, e: Event)
    requires Wf(s.leaf) && Enabled(s, e)
    ensures Wf(Step(s, e).leaf)
    ensures var cs, now := Contents(s.leaf.servers), Contents(Step(s, e).leaf.servers);
            match e
            case Joins(info) => now == cs + [info]
            case Fails(ids) => now == Keep(cs, ToSet(ids))
            case _ => now == cs
  {
    hide Lay, Sum16, Key, Owns, AppendServer, DropServers, FailAll, Keep, Moved;
    match e
    case Joins(info) =>
      WfAfterAdd(s.leaf, info);
      ContentsOfAppend(s.leaf, info);
    case Fails(ids) =>
      BatchFacts(s.leaf, ids);
      BatchOutcome(s.leaf, ids);
    case _ =>
  }

  // ---------- the nodes of removed servers ----------

  /** The node of a removed server: its record when its turn in the batch came. */
  ghost predicate AsItWent(leaf: LeafRec, ids: seq<u16>, j: nat, rec: ServerRec)
    requires j < |ids|
  {
    rec in FailAll(leaf, ids[..j]).leaf.servers && rec.id == ids[j]
  }

  ghost predicate Batchable(leaf: LeafRec, ids: seq<u16>) {
    && DistinctInfos(Contents(leaf.servers)) && (forall i, j | 0 <= i < j < |ids| :: ids[i] != ids[j])
    && ToSet(ids) <= AllIds(Contents(leaf.servers))
  }

  /** The last server of a batch is there when its turn comes. */
  lemma LastIsThere(leaf: LeafRec, ids: seq<u16>)
    requires ids != [] && Batchable(leaf, ids)
    ensures var most, id := ids[..|ids|-1], ids[|ids|-1];
            && Batchable(leaf, most) && ToSet(ids) == ToSet(most) + {id} && id !in ToSet(most)
            && id in Removed(leaf, ids) && Removed(leaf, ids) == Removed(leaf, most)[id := Removed(leaf, ids)[id]]
            && AsItWent(leaf, ids, |most|, Removed(leaf, ids)[id])
  {
    hide FailAll, RecordsWith, Keep, DistinctInfos, Contents;
    var most, id := ids[..|ids|-1], ids[|ids|-1];
    assert ids == most + [id];
    ToSetAppend(most, id);
    BatchOutcome(leaf, most);
    KeptIds(Contents(leaf.servers), ToSet(most));
    var rs := RecordsWith(FailAll(leaf, most).leaf, id);
    assert id in AllIds(Contents(FailAll(leaf, most).leaf.servers));
    assert rs[0] in rs;
  }

  lemma {:induction false} RemovedKeys(leaf: LeafRec, ids: seq<u16>)
    requires Batchable(leaf, ids)
    ensures Removed(leaf, ids).Keys == ToSet(ids)
  {
    if ids != [] {
      hide FailAll, Batchable, ToSet, RecordsWith;
      LastIsThere(leaf, ids);
      RemovedKeys(leaf, ids[..|ids|-1]);
    }
  }

  /** The node of each server of a batch is as it was when its turn came. */
  lemma {:induction false} RemovedIs(leaf: LeafRec, ids: seq<u16>, j: nat)
    requires Batchable(leaf, ids) && j < |ids|
    ensures ids[j] in Removed(leaf, ids) && AsItWent(leaf, ids, j, Removed(leaf, ids)[ids[j]])
  {
    hide Removed, FailAll, Batchable, ToSet;
    LastIsThere(leaf, ids);
    var most := ids[..|ids|-1];
    if j < |most| {
      RemovedIs(leaf, most, j);
      InBatch(most, j);
      assert most[..j] == ids[..j];
    }
  }

  lemma InBatch(ids: seq<u16>, j: nat)
    requires j < |ids|
    ensures ids[j] in ToSet(ids)
  {
  }

  lemma StateFacts(s: State, es: seq<Event>)
    requires Inv(s, Lasts(s, [])) && Possible(s, es)
    ensures var now := Run(s, es); Wf(now.leaf) && now.gone.Keys !! AllIds(Contents(now.leaf.servers))
  {
    RunKeepsInv(s, es);
  }

  ghost predicate FailedIn(es: seq<Event>, k: nat, j: nat, id: u16) {
    k < |es| && es[k].Fails? && j < |es[k].ids| && es[k].ids[j] == id
  }

  /** The IDs of the nodes that are gone are those of the servers that failed, and each node is as it went. */
  ghost predicate GoneAsFailed(s: State, es: seq<Event>) {
    var gone := Run(s, es).gone;
    && (forall id | id in gone :: exists k: nat, j: nat :: FailedIn(es, k, j, id))
    && forall k: nat, j: nat, id | FailedIn(es, k, j, id) ::
         id in gone && AsItWent(Run(s, es[..k]).leaf, es[k].ids, j, gone[id])
  }

  lemma {:induction false} GoneOfRun(s: State, es: seq<Event>)
    requires Inv(s, Lasts(s, [])) && s.gone == map[] && Possible(s, es)
    ensures GoneAsFailed(s, es)
  {
    if es != [] {
      hide Inv, Enabled, GoneAsFailed, AsItWent;
      GoneOfRun(s, es[..|es|-1]);
      StateFacts(s, es[..|es|-1]);
      GoneStep(s, es);
    }
  }

  lemma GoneStep(s: State, es: seq<Event>)
    requires es != [] && GoneAsFailed(s, es[..|es|-1])
    requires var mid := Run(s, es[..|es|-1]);
             && Enabled(mid, es[|es|-1]) && Wf(mid.leaf) && mid.gone.Keys !! AllIds(Contents(mid.leaf.servers))
    ensures GoneAsFailed(s, es)
  {
    hide Wf, AsItWent, Removed, FailAll, Write, AppendServer;
    var most, e, n := es[..|es|-1], es[|es|-1], |es| - 1;
    var mid, gone := Run(s, most), Run(s, es).gone;
    if e.Fails? {
      DistinctInWf(mid.leaf);
      RemovedKeys(mid.leaf, e.ids);
      forall id | id in ToSet(e.ids) ensures exists k: nat, j: nat :: FailedIn(es, k, j, id) {
        var j :| 0 <= j < |e.ids| && e.ids[j] == id;
        assert FailedIn(es, n, j, id);
      }
    }
    forall id | id in mid.gone ensures exists k: nat, j: nat :: FailedIn(es, k, j, id) {
      var k: nat, j: nat :| FailedIn(most, k, j, id);
      assert FailedIn(es, k, j, id);
    }
    forall k: nat, j: nat, id | FailedIn(es, k, j, id)
      ensures id in gone && AsItWent(Run(s, es[..k]).leaf, es[k].ids, j, gone[id])
    {
      if k < n {
        assert most[..k] == es[..k] && FailedIn(most, k, j, id);
      } else {
        assert es[..k] == most;
        RemovedIs(mid.leaf, e.ids, j);
      }
    }
  }

  lemma DistinctInWf(l: LeafRec)
    requires Wf(l)
    ensures DistinctInfos(Contents(l.servers))
  {
  }

  // ---------- what is under way ----------

  function JoinMark(e: Event, id: u16): Mark {
    if e.Joins? && e.info.id == id then On else if e == HandlesNew(id) then Off else Same
  }

  function JoinMarks(es: seq<Event>, id: u16): (marks: seq<Mark>)
    ensures |marks| == |es|
  {
    seq(|es|, k requires 0 <= k < |es| => JoinMark(es[k], id))
  }

  /** The message about a new server is under way from when it joins to when the message is handled. */
  lemma {:induction false} JoiningIff(s: State, es: seq<Event>, id: u16)
    ensures id in Run(s, es).joining <==> LeftOn(id in s.joining, JoinMarks(es, id))
  {
    if es != [] {
      hide LeftOn;
      var most, e := es[..|es|-1], es[|es|-1];
      JoiningIff(s, most, id);
      JoiningStep(Run(s, most), e, id);
      OneMore(id in s.joining, JoinMarks(most, id), JoinMark(e, id));
      assert JoinMarks(es, id) == JoinMarks(most, id) + [JoinMark(e, id)];
    }
  }

  lemma JoiningStep(s: State, e: Event, id: u16)
    ensures id in Step(s, e).joining <==> JoinMark(e, id) == On || (JoinMark(e, id) == Same && id in s.joining)
  {
    hide AppendServer, FailAll, Removed, Write, IsThere;
  }

  /** How often the server was behind a failed one. */
  ghost function TimesMoved(s: State, es: seq<Event>, id: u16): nat {
    if es == [] then 0
    else
      var most, e := es[..|es|-1], es[|es|-1];
      TimesMoved(s, most, id) +
      if e.Fails? && id in Moved(Contents(Run(s, most).leaf.servers), ToSet(e.ids)) then 1 else 0
  }

  function TimesHandled(es: seq<Event>, id: u16): nat {
    if es == [] then 0 else TimesHandled(es[..|es|-1], id) + if es[|es|-1] == Handles(id) then 1 else 0
  }

  /** Each failure reports each survivor behind it once, and each report is handled once or is under way. */
  lemma {:induction false} PendingIs(s: State, es: seq<Event>, id: u16)
    requires Inv(s, Lasts(s, [])) && Possible(s, es)
    ensures Run(s, es).pending[id] + TimesHandled(es, id) == s.pending[id] + TimesMoved(s, es, id)
  {
    hide Inv, Enabled, Step, Moved;
    if es != [] {
      var most := es[..|es|-1];
      PendingIs(s, most, id);
      StateFacts(s, most);
      PendingStep(Run(s, most), es[|es|-1], id);
    }
  }

  lemma PendingStep(s: State, e: Event, id: u16)
    requires Wf(s.leaf) && Enabled(s, e)
    ensures var moved := e.Fails? && id in Moved(Contents(s.leaf.servers), ToSet(e.ids));
            Step(s, e).pending[id] + (if e == Handles(id) then 1 else 0) == s.pending[id] + if moved then 1 else 0
  {
    hide Wf, AppendServer, FailAll, Removed, Write, Moved, Keep, DropServers, Contents, AllIds;
    if e.Fails? {
      DistinctInWf(s.leaf);
      BatchOutcome(s.leaf, e.ids);
    }
  }

  // ---------- what one report writes ----------

  /** The node that a report means: the server's, or the one that is gone. */
  ghost predicate Means(s: State, id: u16, rec: ServerRec) {
    (rec in s.leaf.servers && rec.id == id) || (!IsThere(s, id) && id in s.gone && rec == s.gone[id])
  }

  /** Handling a report writes the rows of its node, as it is now or as it went, and no others. */
  lemma HandledIsWritten(s: State, e: Event, rec: ServerRec, wid: u16)
    requires Wf(s.leaf) && (e.Handles? || (e.HandlesNew? && IsThere(s, e.id))) && Means(s, e.id, rec)
    ensures var key, now := Key(s.leaf.id, wid), Step(s, e).fwd;
            if rec.first <= wid < rec.first + RowCount(rec)
              then key in now && now[key] == Row(rec.port.devPort, rec.address)
            else (key in now <==> key in s.fwd) && (key in now ==> now[key] == s.fwd[key])
  {
    hide Wf, Key, RowCount, AllIds;
    NodeIs(s, e.id, rec);
    WriteRowsAt(s.fwd, s.leaf.id, rec, RowCount(rec), wid);
  }

  lemma NodeIs(s: State, id: u16, rec: ServerRec)
    requires Wf(s.leaf) && Means(s, id, rec)
    ensures NodeOf(s, id) == [rec]
  {
    if rec in s.leaf.servers && rec.id == id {
      var i :| 0 <= i < |s.leaf.servers| && s.leaf.servers[i] == rec;
      assert Contents(s.leaf.servers)[i].id == id;
      var rs := RecordsWith(s.leaf, id);
      assert rs[0] in rs;
      var j :| 0 <= j < |s.leaf.servers| && s.leaf.servers[j] == rs[0];
      SameIdSameServer(s.leaf, i, j);
    }
  }
}
