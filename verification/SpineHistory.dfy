/** When the bus of a spine writes the tables, and when a leaf waits (ctrl_mgr/spineBus.go), said about whole
    runs: what is waiting or under way is read off the events, and the tables are those of the last event that
    had to write them. */
module SpineHistory {
  import opened Words
  import opened TopologySpec
  import opened SpineShape
  import opened SpineTables
  import opened Histories

  // ---------- when the tables are written ----------

  ghost predicate Populated(ls: seq<LeafRec>, leafID: u16) {
    exists l | l in ls :: l.id == leafID && l.servers != []
  }

  ghost predicate IsBelow(ls: seq<LeafRec>, leafID: u16, serverID: u16) {
    exists l | l in ls :: l.id == leafID && serverID in Ids(l)
  }

  /** The event brings a leaf into the tables: it comes with a server, or it waited and its first server is
      announced. */
  ghost predicate Opens(s: State, e: Event, leafID: u16) {
    match e
    case NewLeafHandled(id) => id == leafID && Populated(s.ls, id)
    case NewServerHandled(id) => leafID in s.pending && IsBelow(s.ls, leafID, id)
    case _ => false
  }

  ghost predicate Updates(s: State, e: Event) {
    e.FailedLeafHandled? || exists leafID :: Opens(s, e, leafID)
  }

  lemma AtPosition(ls: seq<LeafRec>, leafID: u16)
    requires Shape(ls) && HasLeaf(ls, leafID)
    ensures PositionOf(ls, leafID) < |ls|
    ensures Populated(ls, leafID) <==> ls[PositionOf(ls, leafID)].servers != []
  {
    var k := PositionOf(ls, leafID);
    assert ls[k] in ls;
    if Populated(ls, leafID) {
      var l :| l in ls && l.id == leafID && l.servers != [];
      var i :| 0 <= i < |ls| && ls[i] == l;
      assert i == k;
    }
  }

  lemma OwnerIsBelow(ls: seq<LeafRec>, serverID: u16)
    requires Shape(ls)
    ensures var k := OwnerOf(ls, serverID);
            forall leafID :: IsBelow(ls, leafID, serverID) <==> k < |ls| && ls[k].id == leafID
  {
    var k := OwnerOf(ls, serverID);
    forall i | 0 <= i < |ls| { HasServerIds(ls[i], serverID); }
    if k < |ls| {
      assert ls[k] in ls;
    }
    forall leafID | IsBelow(ls, leafID, serverID) ensures k < |ls| && ls[k].id == leafID {
      var l :| l in ls && l.id == leafID && serverID in Ids(l);
      var i :| 0 <= i < |ls| && ls[i] == l;
      assert HasServer(ls[i], serverID);
      assert i == k;
    }
  }

  /** The tables change only in an update. */
  lemma OnlyUpdatesWrite(s: State, e: Event)
    requires Shape(s.ls) && Step(s, e).Next? && !Updates(s, e)
    ensures Step(s, e).s.t == s.t
  {
    hide OnLeafChange;
    match e
    case NewLeafHandled(id) =>
      AtPosition(s.ls, id);
      assert !Opens(s, e, id);
    case NewServerHandled(id) =>
      OwnerIsBelow(s.ls, id);
      assert !Opens(s, e, s.ls[OwnerOf(s.ls, id)].id);
    case _ =>
  }

  /** An update numbers all the leaves there are, and forwards to the one it brings in. */
  lemma UpdatesWriteAll(s: State, e: Event)
    requires Shape(s.ls) && Step(s, e).Next? && Updates(s, e)
    ensures var t := Step(s, e).s.t;
            && t.numLeafs == |s.ls| && Agree(t, s.ls, |s.ls|)
            && (forall i | 0 <= i < |s.ls| && Opens(s, e, s.ls[i].id) :: Forwarded(t, s.ls[i]))
            && forall id | !Opens(s, e, id) ::
                 (id in t.fwd <==> id in s.t.fwd) && (id in t.fwd ==> t.fwd[id] == s.t.fwd[id])
  {
    hide OwnerOf;
    var t := Step(s, e).s.t;
    match e
    case NewLeafHandled(id) =>
      AtPosition(s.ls, id);
      OnLeafChangeSettles(s, t, id, true);
      OtherRowsStay(s.t, s.ls, id, true);
    case NewServerHandled(id) =>
      OwnerIsBelow(s.ls, id);
      var leafID := s.ls[OwnerOf(s.ls, id)].id;
      OnLeafChangeSettles(s, t, leafID, true);
      OtherRowsStay(s.t, s.ls, leafID, true);
    case FailedLeafHandled(id) =>
      OnLeafChangeSettles(s, t, id, false);
      OtherRowsStay(s.t, s.ls, id, false);
  }

  lemma OtherRowsStay(t: Tables, ls: seq<LeafRec>, leafID: u16, added: bool)
    requires Shape(ls) && (added ==> HasLeaf(ls, leafID))
    ensures var now := OnLeafChange(t, ls, leafID, added);
            forall id | !(added && id == leafID) ::
              (id in now.fwd <==> id in t.fwd) && (id in now.fwd ==> now.fwd[id] == t.fwd[id])
  {
    var u := if added then t.(fwd := t.fwd[leafID := ls[PositionOf(ls, leafID)].dsPort.devPort]) else t;
    WriteRowsAgree(u, ls);
  }

  // ---------- what is waiting and what is under way ----------

  datatype Switch =
    | Waits(leafID: u16)          // in the pending map
    | LeafQueued(leafID: u16)     // in a message about a new leaf
    | ServerQueued(serverID: u16) // in a message about a new server

  predicate IsOn(sw: Switch, s: State) {
    match sw
    case Waits(id) => id in s.pending
    case LeafQueued(id) => id in s.newLeaves
    case ServerQueued(id) => id in s.newServers
  }

  /** A leaf waits from when it is handled without servers to when the first of its servers is handled. */
  ghost function MarkOf(sw: Switch, s: State, e: Event): Mark {
    match sw
    case Waits(id) =>
      if e == NewLeafHandled(id) && !Populated(s.ls, id) then On
      else if e.NewServerHandled? && IsBelow(s.ls, id, e.serverID) then Off
      else Same
    case LeafQueued(id) =>
      if e.LeafAdded? && e.leaf.id == id then On else if e == NewLeafHandled(id) then Off else Same
    case ServerQueued(id) =>
      if e.ServerAdded? && e.server.id == id then On else if e == NewServerHandled(id) then Off else Same
  }

  ghost function Marks(sw: Switch, s: State, es: seq<Event>): (marks: seq<Mark>)
    requires Run(s, es).Next?
    ensures |marks| == |es|
  {
    seq(|es|, k requires 0 <= k < |es| => PrefixRuns(s, es, k); MarkOf(sw, Run(s, es[..k]).s, es[k]))
  }

  lemma {:induction false} PrefixRuns(s: State, es: seq<Event>, k: nat)
    requires Run(s, es).Next? && k <= |es|
    ensures Run(s, es[..k]).Next?
  {
    if k < |es| {
      PrefixRuns(s, es[..|es|-1], k);
      assert es[..|es|-1][..k] == es[..k];
    } else {
      assert es[..k] == es;
    }
  }

  lemma SwitchStep(sw: Switch, s: State, e: Event)
    requires Shape(s.ls) && Step(s, e).Next?
    ensures IsOn(sw, Step(s, e).s) <==> MarkOf(sw, s, e) == On || (MarkOf(sw, s, e) == Same && IsOn(sw, s))
  {
    hide OnLeafChange, OwnerOf, AddLeaf, RemoveLeaf, AddServer, RemoveServer, Populated, IsBelow;
    match e
    case NewLeafHandled(id) => AtPosition(s.ls, id);
    case NewServerHandled(id) => OwnerIsBelow(s.ls, id);
    case _ =>
  }

  lemma {:induction false} OfferedShape(s: State, es: seq<Event>)
    requires Shape(s.ls) && Offered(s, es) && Run(s, es).Next?
    ensures Shape(Run(s, es).s.ls)
  {
    if es != [] {
      OfferedShape(s, es[..|es|-1]);
      NodesAfter(Run(s, es[..|es|-1]).s, es[|es|-1]);
    }
  }

  /** Over any run that does not crash, whether nodes fail early or not: who waits and what is under way is
      what was turned on by its event and not off since. */
  lemma {:induction false} SwitchOfRun(sw: Switch, s: State, es: seq<Event>)
    requires Shape(s.ls) && Offered(s, es) && Run(s, es).Next?
    ensures IsOn(sw, Run(s, es).s) <==> LeftOn(IsOn(sw, s), Marks(sw, s, es))
  {
    hide Step, IsOn, MarkOf, LeftOn;
    if es == [] {
      NothingYet(IsOn(sw, s), Marks(sw, s, es));
    } else {
      var most, e := es[..|es|-1], es[|es|-1];
      SwitchOfRun(sw, s, most);
      OfferedShape(s, most);
      SwitchStep(sw, Run(s, most).s, e);
      OneMore(IsOn(sw, s), Marks(sw, s, most), MarkOf(sw, Run(s, most).s, e));
      MarksSnoc(sw, s, es);
    }
  }

  lemma NothingYet(before: bool, marks: seq<Mark>)
    requires marks == []
    ensures LeftOn(before, marks) <==> before
  {
  }

  lemma MarksSnoc(sw: Switch, s: State, es: seq<Event>)
    requires es != [] && Run(s, es).Next?
    ensures Marks(sw, s, es) == Marks(sw, s, es[..|es|-1]) + [MarkOf(sw, Run(s, es[..|es|-1]).s, es[|es|-1])]
  {
    hide Run, MarkOf;
    var most, all := es[..|es|-1], Marks(sw, s, es);
    PrefixRuns(s, es, |most|);
    var some := Marks(sw, s, most);
    forall k | 0 <= k < |most| ensures all[k] == some[k] {
      assert most[..k] == es[..k];
    }
  }

  function Failures(es: seq<Event>, leafID: u16): nat {
    if es == [] then 0 else Failures(es[..|es|-1], leafID) + if es[|es|-1] == LeafFailed(leafID) then 1 else 0
  }

  function FailuresHandled(es: seq<Event>, leafID: u16): nat {
    if es == [] then 0
    else FailuresHandled(es[..|es|-1], leafID) + if es[|es|-1] == FailedLeafHandled(leafID) then 1 else 0
  }

  lemma FailureStep(s: State, e: Event, leafID: u16)
    requires Accepted(s, e) && Step(s, e).Next?
    ensures Step(s, e).s.failedLeaves[leafID] + (if e == FailedLeafHandled(leafID) then 1 else 0) ==
            s.failedLeaves[leafID] + if e == LeafFailed(leafID) then 1 else 0
  {
    hide OnLeafChange, OwnerOf, AddLeaf, RemoveLeaf, HasLeaf, AnyHasServer, AddressTaken, AddServer;
  }

  /** Every message about a failed leaf is handled once or is under way. */
  lemma {:induction false} FailuresUnderWay(s: State, es: seq<Event>, leafID: u16)
    requires Offered(s, es) && Run(s, es).Next?
    ensures Run(s, es).s.failedLeaves[leafID] + FailuresHandled(es, leafID) ==
            s.failedLeaves[leafID] + Failures(es, leafID)
  {
    hide Step, Accepted;
    if es != [] {
      FailuresUnderWay(s, es[..|es|-1], leafID);
      FailureStep(Run(s, es[..|es|-1]).s, es[|es|-1], leafID);
    }
  }

  // ---------- the tables over whole runs ----------

  ghost predicate UpdatedAt(s: State, es: seq<Event>, k: nat)
    requires Run(s, es).Next? && k < |es|
  {
    PrefixRuns(s, es, k);
    Updates(Run(s, es[..k]).s, es[k])
  }

  ghost predicate NoUpdate(s: State, es: seq<Event>, start: nat)
    requires Run(s, es).Next?
  {
    forall k: nat | start <= k < |es| :: !UpdatedAt(s, es, k)
  }

  lemma {:induction false} TablesStay(s: State, es: seq<Event>, start: nat)
    requires Shape(s.ls) && Offered(s, es) && Run(s, es).Next? && start <= |es| && NoUpdate(s, es, start)
    ensures Run(s, es[..start]).Next? && Run(s, es).s.t == Run(s, es[..start]).s.t
  {
    hide Step, Updates;
    if start == |es| {
      assert es[..start] == es;
    } else {
      var most := es[..|es|-1];
      forall k: nat | start <= k < |most| ensures !UpdatedAt(s, most, k) {
        assert most[..k] == es[..k] && !UpdatedAt(s, es, k);
      }
      TablesStay(s, most, start);
      OfferedShape(s, most);
      assert most[..start] == es[..start];
      assert !UpdatedAt(s, es, |most|);
      OnlyUpdatesWrite(Run(s, most).s, es[|es|-1]);
    }
  }

  lemma {:induction false} OfferedBefore(s: State, es: seq<Event>, k: nat)
    requires Offered(s, es) && k <= |es|
    ensures Offered(s, es[..k])
  {
    if k < |es| {
      OfferedBefore(s, es[..|es|-1], k);
      assert es[..|es|-1][..k] == es[..k];
    } else {
      assert es[..k] == es;
    }
  }

  /** The tables number the leaves that there were at the last update, all of them and no others. */
  lemma TablesOfLastUpdate(s: State, es: seq<Event>, k: nat)
    requires Shape(s.ls) && Offered(s, es) && Run(s, es).Next?
    requires k < |es| && UpdatedAt(s, es, k) && NoUpdate(s, es, k + 1)
    ensures Run(s, es[..k]).Next?
    ensures var t, ls := Run(s, es).s.t, Run(s, es[..k]).s.ls; t.numLeafs == |ls| && Agree(t, ls, |ls|)
  {
    hide Step, Updates, Agree;
    var before, upTo := es[..k], es[..k+1];
    TablesStay(s, es, k + 1);
    PrefixRuns(s, es, k);
    OfferedBefore(s, es, k);
    OfferedShape(s, before);
    assert upTo[..k] == before && upTo[k] == es[k];
    UpdatesWriteAll(Run(s, before).s, es[k]);
  }

  // ---------- a spine without servers ----------

  predicate Bare(ls: seq<LeafRec>) {
    forall l | l in ls :: l.servers == []
  }

  predicate NoServerNoFailure(es: seq<Event>) {
    forall e | e in es :: !e.ServerAdded? && !e.LeafFailed? && !e.ServerFailed?
  }

  ghost predicate Idle(s: State) {
    Shape(s.ls) && Bare(s.ls) && s.newServers == {} && s.failedLeaves == multiset{}
  }

  lemma IdleStep(s: State, e: Event)
    requires Idle(s) && Accepted(s, e) && Step(s, e).Next? && NoServerNoFailure([e])
    ensures var now := Step(s, e).s;
            && Idle(now) && now.t == s.t
            && forall id :: id in now.pending <==> id in s.pending || e == NewLeafHandled(id)
  {
    hide OnLeafChange, OwnerOf, RemoveLeaf, AddServer, RemoveServer;
    assert e in [e];
    match e
    case LeafAdded(leaf) => AddLeafShape(s.ls, leaf);
    case NewLeafHandled(id) => AtPosition(s.ls, id);
    case _ =>
  }

  lemma {:induction false} IdleRun(ls: seq<LeafRec>, es: seq<Event>)
    requires Shape(ls) && Bare(ls) && NoServerNoFailure(es)
    requires var s0 := State(ls, Init(ls), {}, {}, {}, multiset{}); Offered(s0, es) && Run(s0, es).Next?
    ensures var now := Run(State(ls, Init(ls), {}, {}, {}, multiset{}), es).s;
            Idle(now) && now.t == Init(ls) && forall id :: id in now.pending <==> NewLeafHandled(id) in es
  {
    hide Step, Init, Accepted, Shape;
    if es != [] {
      var most, e := es[..|es|-1], es[|es|-1];
      assert es == most + [e];
      assert e in es && forall x | x in most :: x in es;
      IdleRun(ls, most);
      IdleStep(Run(State(ls, Init(ls), {}, {}, {}, multiset{}), most).s, e);
    }
  }

  /** Leaves that come without servers wait, and the data plane keeps the tables that Init wrote. */
  lemma EmptyLeavesWait(ls: seq<LeafRec>, es: seq<Event>)
    requires Shape(ls) && Bare(ls) && NoServerNoFailure(es)
    requires var s0 := State(ls, Init(ls), {}, {}, {}, multiset{}); Offered(s0, es) && Run(s0, es).Next?
    ensures var now := Run(State(ls, Init(ls), {}, {}, {}, multiset{}), es).s;
            now.t == Init(ls) && now.t.numLeafs == |ls| && forall id :: id in now.pending <==> NewLeafHandled(id) in es
  {
    IdleRun(ls, es);
  }
}
