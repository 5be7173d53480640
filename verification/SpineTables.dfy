/** The data-plane tables of a spine switch and the bus that keeps them up to date
    (ctrl_mgr/cp.go, ctrl_mgr/spineBus.go).

    The topology changes first; messages about the change reach the bus later, over separate channels
    and so in any order. A leaf that arrives without servers waits in the pending map until its first
    server is announced. */
module SpineTables {
  import opened Words
  import opened TopologySpec
  import opened WorkerRanges
  import opened SpineContents
  import opened SpineShape

  /** get_rand_leaf_id_1/2, get_switch_index, get_cluster_num_valid_leafs, forward_horus_switch_dst. */
  datatype Tables = Tables(idxToLeaf: map<nat, u16>, leafToIdx: map<u16, nat>, numLeafs: nat, fwd: map<u16, nat>)

  const NO_TABLES := Tables(map[], map[], 0, map[])

  /** The loop of OnLeafChange: each child's rows, keyed by its stored index. */
  function WriteRows(t: Tables, ls: seq<LeafRec>): (r: Tables) {
    if ls == [] then t
    else
      var u, l := WriteRows(t, ls[..|ls|-1]), ls[|ls|-1];
      u.(leafToIdx := u.leafToIdx[l.id := l.index], idxToLeaf := u.idxToLeaf[l.index := l.id])
  }

  /** The loops of Init: each child's rows, keyed by its position, and its forwarding row. */
  function InitRows(t: Tables, ls: seq<LeafRec>): Tables {
    if ls == [] then t
    else
      var u, l := InitRows(t, ls[..|ls|-1]), ls[|ls|-1];
      u.(leafToIdx := u.leafToIdx[l.id := |ls| - 1], idxToLeaf := u.idxToLeaf[|ls| - 1 := l.id],
         fwd := u.fwd[l.id := l.dsPort.devPort])
  }

  function Init(ls: seq<LeafRec>): Tables {
    InitRows(NO_TABLES, ls).(numLeafs := |ls|)
  }

  function OnLeafChange(t: Tables, ls: seq<LeafRec>, leafID: u16, added: bool): Tables
    requires added ==> HasLeaf(ls, leafID)
  {
    var u := if added then t.(fwd := t.fwd[leafID := ls[PositionOf(ls, leafID)].dsPort.devPort]) else t;
    WriteRows(u, ls).(numLeafs := |ls|)
  }

  // ---------- what the tables say ----------

  /** Below `n`, positions and leaf IDs are mapped to each other, both ways. */
  ghost predicate Agree(t: Tables, ls: seq<LeafRec>, n: nat) {
    n <= |ls| &&
    forall i: nat | i < n ::
      && i in t.idxToLeaf && t.idxToLeaf[i] == ls[i].id
      && ls[i].id in t.leafToIdx && t.leafToIdx[ls[i].id] == i
  }

  lemma {:induction false} WriteRowsAgree(t: Tables, ls: seq<LeafRec>)
    requires DistinctLeaves(ls) && IndexesArePositions(ls)
    ensures Agree(WriteRows(t, ls), ls, |ls|) && WriteRows(t, ls).fwd == t.fwd
  {
    if ls != [] {
      WriteRowsAgree(t, ls[..|ls|-1]);
    }
  }

  lemma {:induction false} InitRowsAgree(t: Tables, ls: seq<LeafRec>)
    requires DistinctLeaves(ls)
    ensures Agree(InitRows(t, ls), ls, |ls|)
    ensures forall i | 0 <= i < |ls| :: Forwarded(InitRows(t, ls), ls[i])
  {
    if ls != [] {
      InitRowsAgree(t, ls[..|ls|-1]);
    }
  }

  ghost predicate Forwarded(t: Tables, l: LeafRec) {
    l.id in t.fwd && t.fwd[l.id] == l.dsPort.devPort
  }

  // ---------- the bus as a transition system ----------

  /** The spine's leaves, the tables, the bus's pending map, and the messages under way. */
  datatype State = State(ls: seq<LeafRec>, t: Tables, pending: set<u16>,
                         newLeaves: set<u16>, newServers: set<u16>, failedLeaves: multiset<u16>)

  datatype Event =
    | LeafAdded(leaf: LeafInfo)
    | ServerAdded(server: ServerInfo, parent: u16)
    | LeafFailed(leafID: u16)
    | ServerFailed(serverID: u16)
    | NewLeafHandled(leafID: u16)
    | NewServerHandled(serverID: u16)
    | FailedLeafHandled(leafID: u16)

  /** Requests are accepted by the topology and messages are handled while they are under way. An ID
      is not used again while the message about its last arrival is still under way. */
  ghost predicate Accepted(s: State, e: Event) {
    match e
    case LeafAdded(leaf) => !HasLeaf(s.ls, leaf.id) && !AddressTaken(s.ls, leaf) && leaf.id !in s.newLeaves
    case ServerAdded(server, parent) =>
      HasLeaf(s.ls, parent) && !AnyHasServer(s.ls, server.id) && server.id !in s.newServers
    case LeafFailed(id) => HasLeaf(s.ls, id)
    case ServerFailed(id) => AnyHasServer(s.ls, id)
    case NewLeafHandled(id) => id in s.newLeaves
    case NewServerHandled(id) => id in s.newServers
    case FailedLeafHandled(id) => id in s.failedLeaves
  }

  function LeavesLost(e: Event): set<u16> {
    if e.LeafFailed? then {e.leafID} else {}
  }

  function ServersLost(s: State, e: Event): set<u16> {
    if e.ServerFailed? then {e.serverID}
    else if e.LeafFailed? && HasLeaf(s.ls, e.leafID) then Ids(s.ls[PositionOf(s.ls, e.leafID)])
    else {}
  }

  /** The event takes away a node whose arrival has not been handled yet. */
  predicate FailsEarly(s: State, e: Event) {
    !(LeavesLost(e) !! s.newLeaves && ServersLost(s, e) !! s.newServers)
  }

  ghost predicate Enabled(s: State, e: Event) {
    Accepted(s, e) && !FailsEarly(s, e)
  }

  /** Position of the leaf that has the server; the length of the list if none has. */
  function OwnerOf(ls: seq<LeafRec>, serverID: u16): (k: nat)
    ensures k <= |ls|
    ensures k < |ls| ==> HasServer(ls[k], serverID)
    ensures forall i | 0 <= i < k :: !HasServer(ls[i], serverID)
  {
    if ls == [] then 0
    else
      var k := OwnerOf(ls[..|ls|-1], serverID);
      if k < |ls| - 1 then k else if HasServer(ls[|ls|-1], serverID) then k else k + 1
  }

  /** A handler that looks up a node that is gone dereferences a nil pointer. */
  datatype Outcome = Next(s: State) | Crash

  /** The handler of a new-leaf message looks the leaf up and reads its children. */
  function HandleNewLeaf(s: State, id: u16): Outcome {
    if !HasLeaf(s.ls, id) then Crash
    else if s.ls[PositionOf(s.ls, id)].servers != [] then Next(s.(t := OnLeafChange(s.t, s.ls, id, true)))
    else Next(s.(pending := s.pending + {id}))
  }

  /** The handler of a new-server message looks the server's leaf up in the pending map. */
  function HandleNewServer(s: State, id: u16): Outcome {
    var k := OwnerOf(s.ls, id);
    if k == |s.ls| then Crash
    else if s.ls[k].id in s.pending then
      Next(s.(t := OnLeafChange(s.t, s.ls, s.ls[k].id, true), pending := s.pending - {s.ls[k].id}))
    else Next(s)
  }

  function Step(s: State, e: Event): Outcome {
    match e
    case LeafAdded(leaf) => Next(s.(ls := AddLeaf(s.ls, leaf), newLeaves := s.newLeaves + {leaf.id}))
    case ServerAdded(server, parent) =>
      Next(s.(ls := AddServer(s.ls, server, parent), newServers := s.newServers + {server.id}))
    case LeafFailed(id) => Next(s.(ls := RemoveLeaf(s.ls, id), failedLeaves := s.failedLeaves + multiset{id}))
    case ServerFailed(id) => Next(s.(ls := RemoveServer(s.ls, id)))
    case NewLeafHandled(id) => HandleNewLeaf(s.(newLeaves := s.newLeaves - {id}), id)
    case NewServerHandled(id) => HandleNewServer(s.(newServers := s.newServers - {id}), id)
    case FailedLeafHandled(id) =>
      Next(s.(t := OnLeafChange(s.t, s.ls, id, false), failedLeaves := s.failedLeaves - multiset{id}))
  }

  function Run(s: State, es: seq<Event>): Outcome {
    if es == [] then Next(s)
    else
      var o := Run(s, es[..|es|-1]);
      if o.Crash? then Crash else Step(o.s, es[|es|-1])
  }

  /** Each event is enabled when it happens. */
  ghost predicate Possible(s: State, es: seq<Event>) {
    es == [] ||
    (Possible(s, es[..|es|-1]) &&
     (Run(s, es[..|es|-1]).Next? ==> Enabled(Run(s, es[..|es|-1]).s, es[|es|-1])))
  }

  // ---------- the invariant ----------

  /** A leaf is in the tables, or something will put it there. */
  ghost predicate Attended(s: State, i: nat)
    requires i < |s.ls|
  {
    var l := s.ls[i];
    || l.id in s.newLeaves
    || (l.id in s.pending && Ids(l) <= s.newServers)
    || (Forwarded(s.t, l) && (s.failedLeaves == multiset{} ==> i < s.t.numLeafs))
  }

  ghost predicate Inv(s: State) {
    && Shape(s.ls)
    && (forall id | id in s.newLeaves :: HasLeaf(s.ls, id))
    && (forall id | id in s.newServers :: AnyHasServer(s.ls, id))
    && (s.failedLeaves == multiset{} ==> Agree(s.t, s.ls, s.t.numLeafs))
    && (forall i | 0 <= i < |s.ls| :: Attended(s, i))
  }

  lemma InitialInv(ls: seq<LeafRec>)
    requires Shape(ls)
    ensures Inv(State(ls, Init(ls), {}, {}, {}, multiset{}))
  {
    InitRowsAgree(NO_TABLES, ls);
  }

  // ---------- which nodes an event brings and takes ----------

  /** How an accepted event changes what is in the topology. */
  lemma NodesAfter(s: State, e: Event)
    requires Shape(s.ls) && Accepted(s, e) && Step(s, e).Next?
    ensures Shape(Step(s, e).s.ls)
    ensures forall id :: HasLeaf(Step(s, e).s.ls, id) <==>
              (HasLeaf(s.ls, id) && id !in LeavesLost(e)) || (e.LeafAdded? && id == e.leaf.id)
    ensures forall id :: AnyHasServer(Step(s, e).s.ls, id) <==>
              (AnyHasServer(s.ls, id) && id !in ServersLost(s, e)) || (e.ServerAdded? && id == e.server.id)
  {
    hide Shape, HasLeaf, AnyHasServer, AddLeaf, AddServer, RemoveLeaf, RemoveServer, OwnerOf;
    match e
    case LeafAdded(leaf) => LeafAddedNodes(s.ls, leaf);
    case ServerAdded(server, parent) => ServerAddedNodes(s.ls, server, parent);
    case LeafFailed(id) => LeafFailedNodes(s.ls, id);
    case ServerFailed(id) => ServerFailedNodes(s.ls, id);
    case _ =>
  }

  // ---------- every step keeps the invariant ----------

  lemma OnLeafChangeSettles(s: State, t: Tables, leafID: u16, added: bool)
    requires Shape(s.ls) && (added ==> HasLeaf(s.ls, leafID))
    requires t == OnLeafChange(s.t, s.ls, leafID, added)
    ensures Agree(t, s.ls, t.numLeafs) && t.numLeafs == |s.ls|
    ensures forall i | 0 <= i < |s.ls| && Forwarded(s.t, s.ls[i]) :: Forwarded(t, s.ls[i])
    ensures forall i | 0 <= i < |s.ls| && added && s.ls[i].id == leafID :: Forwarded(t, s.ls[i])
  {
    var u := if added then s.t.(fwd := s.t.fwd[leafID := s.ls[PositionOf(s.ls, leafID)].dsPort.devPort]) else s.t;
    WriteRowsAgree(u, s.ls);
    forall i | 0 <= i < |s.ls| && added && s.ls[i].id == leafID ensures i == PositionOf(s.ls, leafID) {
    }
  }

  lemma LeafAddedKeepsInv(s: State, leaf: LeafInfo)
    requires Inv(s) && Enabled(s, LeafAdded(leaf))
    ensures Inv(Step(s, LeafAdded(leaf)).s)
  {
    var now := Step(s, LeafAdded(leaf)).s;
    AddLeafShape(s.ls, leaf);
    forall i | 0 <= i < |now.ls| ensures Attended(now, i) {
      if i < |s.ls| { assert Attended(s, i); }
    }
    LeafAddedNodes(s.ls, leaf);
  }

  lemma ServerAddedKeepsInv(s: State, server: ServerInfo, parent: u16)
    requires Inv(s) && Enabled(s, ServerAdded(server, parent))
    ensures Inv(Step(s, ServerAdded(server, parent)).s)
  {
    var now := Step(s, ServerAdded(server, parent)).s;
    AddServerShape(s.ls, server, parent);
    forall i | 0 <= i < |now.ls| ensures Attended(now, i) {
      assert Attended(s, i);
    }
    ServerAddedNodes(s.ls, server, parent);
  }

  lemma LeafFailedKeepsInv(s: State, leafID: u16)
    requires Inv(s) && Enabled(s, LeafFailed(leafID))
    ensures Inv(Step(s, LeafFailed(leafID)).s)
  {
    hide RemoveLeaf, OwnerOf, DropServers;
    var now := Step(s, LeafFailed(leafID)).s;
    RemoveLeafShape(s.ls, leafID);
    forall i | 0 <= i < |now.ls| ensures Attended(now, i) {
      assert Attended(s, Skip(PositionOf(s.ls, leafID), i));
    }
    LeafFailedNodes(s.ls, leafID);
  }

  lemma ServerFailedKeepsInv(s: State, serverID: u16)
    requires Inv(s) && Enabled(s, ServerFailed(serverID))
    ensures Inv(Step(s, ServerFailed(serverID)).s)
  {
    var now := Step(s, ServerFailed(serverID)).s;
    RemoveServerShape(s.ls, serverID);
    forall i | 0 <= i < |now.ls| ensures Attended(now, i) {
      assert Attended(s, i);
    }
    ServerFailedNodes(s.ls, serverID);
  }

  lemma NewLeafHandledKeepsInv(s: State, id: u16)
    requires Inv(s) && Enabled(s, NewLeafHandled(id))
    ensures Step(s, NewLeafHandled(id)).Next? && Inv(Step(s, NewLeafHandled(id)).s)
  {
    var now := Step(s, NewLeafHandled(id)).s;
    var k := PositionOf(s.ls, id);
    if s.ls[k].servers != [] {
      OnLeafChangeSettles(s, now.t, id, true);
    }
    forall i | 0 <= i < |now.ls| ensures Attended(now, i) {
      assert Attended(s, i);
    }
  }

  lemma NewServerHandledKeepsInv(s: State, id: u16)
    requires Inv(s) && Enabled(s, NewServerHandled(id))
    ensures Step(s, NewServerHandled(id)).Next? && Inv(Step(s, NewServerHandled(id)).s)
  {
    var now := Step(s, NewServerHandled(id)).s;
    var k := OwnerOf(s.ls, id);
    HasServerIds(s.ls[k], id);
    if s.ls[k].id in s.pending {
      OnLeafChangeSettles(s, now.t, s.ls[k].id, true);
    }
    forall i | 0 <= i < |now.ls| ensures Attended(now, i) {
      assert Attended(s, i);
      assert i != k ==> id !in Ids(s.ls[i]);
    }
  }

  lemma FailedLeafHandledKeepsInv(s: State, id: u16)
    requires Inv(s) && Enabled(s, FailedLeafHandled(id))
    ensures Inv(Step(s, FailedLeafHandled(id)).s)
  {
    var now := Step(s, FailedLeafHandled(id)).s;
    OnLeafChangeSettles(s, now.t, id, false);
    forall i | 0 <= i < |now.ls| ensures Attended(now, i) {
      assert Attended(s, i);
    }
  }

  lemma StepKeepsInv(s: State, e: Event)
    requires Inv(s) && Enabled(s, e)
    ensures Step(s, e).Next? && Inv(Step(s, e).s)
  {
    match e
    case LeafAdded(leaf) => LeafAddedKeepsInv(s, leaf);
    case ServerAdded(server, parent) => ServerAddedKeepsInv(s, server, parent);
    case LeafFailed(id) => LeafFailedKeepsInv(s, id);
    case ServerFailed(id) => ServerFailedKeepsInv(s, id);
    case NewLeafHandled(id) => NewLeafHandledKeepsInv(s, id);
    case NewServerHandled(id) => NewServerHandledKeepsInv(s, id);
    case FailedLeafHandled(id) => FailedLeafHandledKeepsInv(s, id);
  }

  /** No handler ever meets a missing node, and the invariant holds throughout. */
  lemma {:induction false} RunKeepsInv(s: State, es: seq<Event>)
    requires Inv(s) && Possible(s, es)
    ensures Run(s, es).Next? && Inv(Run(s, es).s)
  {
    if es != [] {
      RunKeepsInv(s, es[..|es|-1]);
      StepKeepsInv(Run(s, es[..|es|-1]).s, es[|es|-1]);
    }
  }

  // ---------- quiescence ----------

  ghost predicate Drained(s: State) {
    s.newLeaves == {} && s.newServers == {} && s.failedLeaves == multiset{}
  }

  /** The two tables are inverse on the leaves below `numLeafs` (rows of failed leaves may be left in
      `leafToIdx`); each leaf with servers is below `numLeafs` and forwarded to its own port; each leaf
      at or past `numLeafs` is an empty one that waits in the pending map. */
  ghost predicate Settled(s: State) {
    && Agree(s.t, s.ls, s.t.numLeafs)
    && (forall i | 0 <= i < |s.ls| && s.ls[i].servers != [] :: i < s.t.numLeafs && Forwarded(s.t, s.ls[i]))
    && (forall i | s.t.numLeafs <= i < |s.ls| :: s.ls[i].servers == [] && s.ls[i].id in s.pending)
  }

  /** After any run from the tables Init writes, once every message has been handled, the tables are
      those of the leaves there are. */
  lemma TablesAtQuiescence(ls: seq<LeafRec>, es: seq<Event>)
    requires Shape(ls)
    requires var s0 := State(ls, Init(ls), {}, {}, {}, multiset{}); Possible(s0, es)
    ensures var o := Run(State(ls, Init(ls), {}, {}, {}, multiset{}), es);
            o.Next? && (Drained(o.s) ==> Settled(o.s))
  {
    InitialInv(ls);
    RunKeepsInv(State(ls, Init(ls), {}, {}, {}, multiset{}), es);
    var s := Run(State(ls, Init(ls), {}, {}, {}, multiset{}), es).s;
    if Drained(s) {
      forall i | 0 <= i < |s.ls|
        ensures s.ls[i].servers != [] ==> i < s.t.numLeafs && Forwarded(s.t, s.ls[i])
        ensures s.t.numLeafs <= i ==> s.ls[i].servers == [] && s.ls[i].id in s.pending
      {
        assert Attended(s, i);
        assert s.ls[i].servers != [] ==> s.ls[i].servers[0].id in Ids(s.ls[i]);
      }
    }
  }

  // ---------- when a handler crashes ----------

  /** Each event is accepted when it happens, whatever is under way. A crash ends the run. */
  ghost predicate Offered(s: State, es: seq<Event>) {
    es == [] ||
    (Offered(s, es[..|es|-1]) &&
     (Run(s, es[..|es|-1]).Next? ==> Accepted(Run(s, es[..|es|-1]).s, es[|es|-1])))
  }

  /** At some point a node failed early. */
  ghost predicate SomeFailsEarly(s: State, es: seq<Event>) {
    exists k | 0 <= k < |es| :: EarlyAt(s, es, k)
  }

  ghost predicate EarlyAt(s: State, es: seq<Event>, k: nat)
    requires k < |es|
  {
    Run(s, es[..k]).Next? && FailsEarly(Run(s, es[..k]).s, es[k])
  }

  /** A message is under way about a node that is gone. */
  ghost predicate Doomed(s: State) {
    || (exists id | id in s.newLeaves :: !HasLeaf(s.ls, id))
    || (exists id | id in s.newServers :: !AnyHasServer(s.ls, id))
  }

  lemma EarlyFailureDooms(s: State, e: Event)
    requires Shape(s.ls) && Accepted(s, e) && FailsEarly(s, e)
    ensures Step(s, e).Next? && Doomed(Step(s, e).s)
  {
    NodesAfter(s, e);
  }

  lemma DoomStays(s: State, e: Event)
    requires Shape(s.ls) && Accepted(s, e) && Doomed(s) && Step(s, e).Next?
    ensures Doomed(Step(s, e).s)
  {
    NodesAfter(s, e);
  }

  /** Early failures are what separates the accepted runs from those that keep the invariant. */
  lemma {:induction false} EarlyOrPossible(s: State, es: seq<Event>)
    requires Inv(s) && Offered(s, es)
    ensures !SomeFailsEarly(s, es) ==> Possible(s, es)
    ensures SomeFailsEarly(s, es) && Run(s, es).Next? ==> Shape(Run(s, es).s.ls) && Doomed(Run(s, es).s)
  {
    if es != [] {
      var most, e := es[..|es|-1], es[|es|-1];
      EarlyOrPossible(s, most);
      EarlySteps(s, es);
      if SomeFailsEarly(s, most) {
        if Run(s, es).Next? {
          NodesAfter(Run(s, most).s, e);
          DoomStays(Run(s, most).s, e);
        }
      } else {
        RunKeepsInv(s, most);
        if FailsEarly(Run(s, most).s, e) {
          NodesAfter(Run(s, most).s, e);
          EarlyFailureDooms(Run(s, most).s, e);
        }
      }
    }
  }

  lemma EarlySteps(s: State, es: seq<Event>)
    requires es != []
    ensures SomeFailsEarly(s, es) <==> SomeFailsEarly(s, es[..|es|-1]) || EarlyAt(s, es, |es| - 1)
  {
    var most := es[..|es|-1];
    forall k | 0 <= k < |most| ensures EarlyAt(s, most, k) <==> EarlyAt(s, es, k) {
      assert most[..k] == es[..k];
    }
  }

  /** A run crashes if and only if some node fails while its arrival is under way, provided that every
      arrival under way is handled before the run ends. */
  lemma CrashIff(s: State, es: seq<Event>)
    requires Inv(s) && Offered(s, es)
    requires var o := Run(s, es); o.Next? ==> o.s.newLeaves == {} && o.s.newServers == {}
    ensures Run(s, es).Crash? <==> SomeFailsEarly(s, es)
  {
    EarlyOrPossible(s, es);
    if !SomeFailsEarly(s, es) {
      RunKeepsInv(s, es);
    }
  }

  /** So the tables are right after any run that does not crash, once every message has been handled. */
  lemma TablesUnlessCrash(ls: seq<LeafRec>, es: seq<Event>)
    requires Shape(ls)
    requires var s0 := State(ls, Init(ls), {}, {}, {}, multiset{}); Offered(s0, es)
    ensures var o := Run(State(ls, Init(ls), {}, {}, {}, multiset{}), es);
            o.Next? && Drained(o.s) ==> Settled(o.s)
  {
    var s0 := State(ls, Init(ls), {}, {}, {}, multiset{});
    if Run(s0, es).Next? && Drained(Run(s0, es).s) {
      InitialInv(ls);
      EarlyOrPossible(s0, es);
      TablesAtQuiescence(ls, es);
    }
  }

  /** Why a leaf must not fail while its arrival is under way: its handler then meets no leaf. */
  lemma HandlerOfFailedLeafCrashes(leaf: LeafInfo)
    ensures var s0 := State([], Init([]), {}, {}, {}, multiset{});
            Run(s0, [LeafAdded(leaf), LeafFailed(leaf.id), NewLeafHandled(leaf.id)]) == Crash
  {
    var s0 := State([], Init([]), {}, {}, {}, multiset{});
    var es := [LeafAdded(leaf), LeafFailed(leaf.id), NewLeafHandled(leaf.id)];
    assert es[..2] == [es[0], es[1]] && es[..2][..1] == [es[0]] && [es[0]][..0] == [];
    assert Run(s0, [es[0]]) == Next(s0.(ls := [FreshLeaf(leaf, 0)], newLeaves := {leaf.id}));
    assert RemoveLeaf([FreshLeaf(leaf, 0)], leaf.id) == [];
  }

  lemma ServerFailsEarly(s: State, server: ServerInfo, parent: u16)
    requires Shape(s.ls) && Accepted(s, ServerAdded(server, parent))
    ensures Step(s, ServerAdded(server, parent)).Next?
    ensures var added := Step(s, ServerAdded(server, parent)).s;
            && Step(added, ServerFailed(server.id)).Next?
            && Step(Step(added, ServerFailed(server.id)).s, NewServerHandled(server.id)) == Crash
  {
    var added := Step(s, ServerAdded(server, parent)).s;
    ServerAddedNodes(s.ls, server, parent);
    ServerFailedNodes(added.ls, server.id);
    assert !AnyHasServer(Step(added, ServerFailed(server.id)).s.ls, server.id);
  }

  lemma FirstLeaf(leaf: LeafInfo)
    ensures var s0 := State([], Init([]), {}, {}, {}, multiset{});
            Step(s0, LeafAdded(leaf)) == Next(s0.(ls := [FreshLeaf(leaf, 0)], newLeaves := {leaf.id}))
  {
  }

  lemma RunSnoc(s: State, es: seq<Event>, e: Event)
    ensures Run(s, es + [e]) == if Run(s, es).Crash? then Crash else Step(Run(s, es).s, e)
  {
    assert (es + [e])[..|es|] == es;
  }

  /** The same for a server: the leaf is there, the server is not. */
  lemma HandlerOfFailedServerCrashes(leaf: LeafInfo, server: ServerInfo)
    ensures var s0 := State([], Init([]), {}, {}, {}, multiset{});
            Run(s0, [LeafAdded(leaf), ServerAdded(server, leaf.id), ServerFailed(server.id),
                     NewServerHandled(server.id)]) == Crash
  {
    hide Step, AddServer, RemoveServer, OwnerOf;
    var s0 := State([], Init([]), {}, {}, {}, multiset{});
    var one := s0.(ls := [FreshLeaf(leaf, 0)], newLeaves := {leaf.id});
    var a, b := LeafAdded(leaf), ServerAdded(server, leaf.id);
    var c, d := ServerFailed(server.id), NewServerHandled(server.id);
    assert [a] == [] + [a] && [a, b] == [a] + [b] && [a, b, c] == [a, b] + [c] && [a, b, c, d] == [a, b, c] + [d];
    FirstLeaf(leaf);
    RunSnoc(s0, [], a);
    RunSnoc(s0, [a], b);
    RunSnoc(s0, [a, b], c);
    RunSnoc(s0, [a, b, c], d);
    assert one.ls[0].id == leaf.id;
    ServerFailsEarly(one, server, leaf.id);
  }
}
