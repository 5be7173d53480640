/** How a leaf controller learns its index. Central (core/net/topologyServer_central.go) adds and fails
    leaves and tells the spine over two channels. When the spine fails a leaf it queues the leaves whose
    index changed (core/net/topologyServer_spine.go); the endpoint later sends each of them the index the
    leaf has by then (core/net/rpc_endpoint_spine.go), and the leaf stores it
    (core/net/topologyServer_leaf.go). A controller that starts fetches its index, but from central
    (core/net/rpc_endpoint_leaf.go), which may be ahead of the spine; and it serves requests only later, so
    that an update that is sent in between is lost. */
module IndexPropagation {
  import opened Words
  import opened TopologySpec
  import opened WorkerRanges
  import opened SpineContents
  import opened IdLists

  /** Central's leaves below the spine, the messages from central that are under way, the spine's own
      leaves, the index each leaf controller has stored, the controllers that serve requests, and the
      updates that are under way to them. */
  datatype State = State(central: seq<LeafRec>, adds: seq<LeafInfo>, fails: seq<u16>,
                         ls: seq<LeafRec>, stored: map<u16, u16>, serving: set<u16>, queue: seq<u16>)

  datatype Event =
    | CentralAdds(leaf: LeafInfo)
    | CentralFails(leafID: u16)
    | SpineAdds            // the spine handles the next message of the channel
    | SpineFails
    | Fetch(leafID: u16)   // the controller of a leaf of the spine asks central for its part of the topology
    | Serve(leafID: u16)   // and starts to serve requests
    | Deliver

  function IdsFrom(ls: seq<LeafRec>, k: nat): (ids: seq<u16>)
    requires k <= |ls|
    ensures |ids| == |ls| - k
  {
    seq<u16>(|ls| - k, i requires 0 <= i < |ls| - k => ls[k + i].id)
  }

  /** The leaf's controller goes down with it. The leaves behind it are queued. */
  function FailLeaf(s: State, id: u16): State {
    var k := PositionOf(s.ls, id);
    if k == |s.ls| then s
    else s.(ls := RemoveLeaf(s.ls, id), stored := s.stored - {id}, serving := s.serving - {id},
            queue := s.queue + IdsFrom(s.ls, k + 1))
  }

  /** The index is read when the update is sent, not when it was queued. Only a controller that serves
      requests receives it. */
  function DeliverOne(s: State): State {
    if s.queue == [] then s
    else
      var id, k := s.queue[0], PositionOf(s.ls, s.queue[0]);
      s.(queue := s.queue[1..],
         stored := if k < |s.ls| && id in s.serving then s.stored[id := s.ls[k].index] else s.stored)
  }

  predicate Starts(s: State, id: u16) {
    HasLeaf(s.ls, id) && HasLeaf(s.central, id) && id !in s.stored
  }

  function FetchIndex(s: State, id: u16): State {
    var k := PositionOf(s.central, id);
    if Starts(s, id) && k < |s.central| then s.(stored := s.stored[id := s.central[k].index]) else s
  }

  function Step(s: State, e: Event): State {
    match e
    case CentralAdds(leaf) =>
      if HasLeaf(s.central, leaf.id) || AddressTaken(s.central, leaf) then s
      else s.(central := AddLeaf(s.central, leaf), adds := s.adds + [leaf])
    case CentralFails(id) =>
      if !HasLeaf(s.central, id) then s
      else s.(central := RemoveLeaf(s.central, id), fails := s.fails + [id])
    case SpineAdds => if s.adds == [] then s else s.(ls := AddLeaf(s.ls, s.adds[0]), adds := s.adds[1..])
    case SpineFails => if s.fails == [] then s else FailLeaf(s.(fails := s.fails[1..]), s.fails[0])
    case Fetch(id) => FetchIndex(s, id)
    case Serve(id) => if id in s.stored then s.(serving := s.serving + {id}) else s
    case Deliver => DeliverOne(s)
  }

  function Run(s: State, es: seq<Event>): State {
    if es == [] then s else Step(Run(s, es[..|es|-1]), es[|es|-1])
  }

  // ---------- lists of IDs ----------

  function LeafIds(ls: seq<LeafRec>): (ids: seq<u16>)
    ensures |ids| == |ls| && forall i | 0 <= i < |ls| :: ids[i] == ls[i].id
  {
    seq(|ls|, i requires 0 <= i < |ls| => ls[i].id)
  }

  function AddIds(adds: seq<LeafInfo>): (ids: seq<u16>)
    ensures |ids| == |adds| && forall i | 0 <= i < |adds| :: ids[i] == adds[i].id
  {
    seq(|adds|, i requires 0 <= i < |adds| => adds[i].id)
  }

  /** The leaves the spine has or will have, in order. */
  function Coming(s: State): seq<u16> {
    LeafIds(s.ls) + AddIds(s.adds)
  }

  // ---------- how far a controller is ahead ----------

  /** The event moves the leaf down by one at the spine. */
  predicate Moves(s: State, e: Event, id: u16) {
    e.SpineFails? && s.fails != [] && HasLeaf(s.ls, s.fails[0]) && HasLeaf(s.ls, id) &&
    PositionOf(s.ls, s.fails[0]) < PositionOf(s.ls, id)
  }

  /** An update reaches the controller. */
  predicate Hears(s: State, e: Event, id: u16) {
    e == Deliver && s.queue != [] && s.queue[0] == id && id in s.serving
  }

  /** The leaves before this one at the spine that central has failed already. */
  function FailedAhead(s: State, id: u16): nat {
    Missing(LeafIds(s.ls)[..PositionOf(s.ls, id)], set x | x in LeafIds(s.central))
  }

  /** How many failures in front of the leaf the controller knows of and the spine has not handled yet;
      below zero, how many the spine has handled and the controller does not know of. */
  function Lead(s: State, es: seq<Event>, id: u16): int {
    if es == [] then 0
    else
      var now, e, lead := Run(s, es[..|es|-1]), es[|es|-1], Lead(s, es[..|es|-1], id);
      if e == Fetch(id) && Starts(now, id) then FailedAhead(now, id)
      else if Hears(now, e, id) then 0
      else if Moves(now, e, id) then lead - 1
      else lead
  }

  // ---------- the two trees ----------

  predicate SameAddress(a: LeafInfo, b: LeafInfo) {
    a.mgmt == b.mgmt && a.address == b.address
  }

  /** A leaf that central adds has an ID and an address that are not in use at the spine, or on their way
      there, and its ID is in no message about a failure. */
  ghost predicate IsNew(s: State, leaf: LeafInfo) {
    && leaf.id !in Coming(s) && leaf.id !in s.fails && !AddressTaken(s.ls, leaf)
    && forall i | 0 <= i < |s.adds| :: !SameAddress(s.adds[i], leaf)
  }

  ghost predicate Enabled(s: State, e: Event) {
    e.CentralAdds? ==> IsNew(s, e.leaf)
  }

  ghost predicate Possible(s: State, es: seq<Event>) {
    es == [] || (Possible(s, es[..|es|-1]) && Enabled(Run(s, es[..|es|-1]), es[|es|-1]))
  }

  function AtCentral(s: State): set<u16> {
    set x | x in LeafIds(s.central)
  }

  /** Central has those of the spine's leaves, present and coming, that it has not failed, in their order. */
  ghost predicate InOrder(s: State) {
    Distinct(Coming(s)) && LeafIds(s.central) == Only(Coming(s), AtCentral(s))
  }

  /** The leaves that are coming will be accepted. */
  ghost predicate Welcome(s: State) {
    && (forall i | 0 <= i < |s.adds| :: !AddressTaken(s.ls, s.adds[i]))
    && forall i, j | 0 <= i < j < |s.adds| :: !SameAddress(s.adds[i], s.adds[j])
  }

  ghost predicate Sync(s: State) {
    && Indexed(s.ls) && Indexed(s.central) && InOrder(s) && Welcome(s)
    && (forall x | x in s.fails :: x !in AtCentral(s))
    && s.serving <= s.stored.Keys && forall id | id in s.stored :: HasLeaf(s.ls, id)
  }

  lemma KnownByPosition(ls: seq<LeafRec>, id: u16)
    ensures PositionOf(ls, id) < |ls| <==> HasLeaf(ls, id)
    ensures HasLeaf(ls, id) <==> id in LeafIds(ls)
  {
    if HasLeaf(ls, id) {
      var i :| 0 <= i < |ls| && ls[i].id == id;
      assert LeafIds(ls)[i] == id;
    }
  }

  lemma IdsAfterAdd(ls: seq<LeafRec>, leaf: LeafInfo)
    requires Indexed(ls) && !HasLeaf(ls, leaf.id) && !AddressTaken(ls, leaf)
    ensures Indexed(AddLeaf(ls, leaf)) && LeafIds(AddLeaf(ls, leaf)) == LeafIds(ls) + [leaf.id]
  {
    AddLeafOk(ls, leaf);
  }

  lemma IdsAfterFail(ls: seq<LeafRec>, id: u16)
    requires Indexed(ls) && HasLeaf(ls, id)
    ensures var k := PositionOf(ls, id);
            && k < |ls| && Indexed(RemoveLeaf(ls, id))
            && LeafIds(RemoveLeaf(ls, id)) == LeafIds(ls)[..k] + LeafIds(ls)[k+1..]
  {
    RemoveLeafOk(ls, id);
  }




  lemma DistinctIdsOf(ls: seq<LeafRec>)
    requires Indexed(ls)
    ensures Distinct(LeafIds(ls))
  {
  }

  lemma OrderGrows(s: State, now: State, id: u16)
    requires InOrder(s) && id !in Coming(s)
    requires Coming(now) == Coming(s) + [id] && LeafIds(now.central) == LeafIds(s.central) + [id]
    ensures InOrder(now) && AtCentral(now) == AtCentral(s) + {id}
  {
    assert AtCentral(now) == AtCentral(s) + {id};
    OnlyConcat(Coming(s), [id], AtCentral(now));
    OnlySame(Coming(s), AtCentral(s), AtCentral(now));
    assert Only([id], AtCentral(now)) == [id] by { assert [id][..0] == []; }
  }

  lemma CentralAddsKeepsSync(s: State, leaf: LeafInfo)
    requires Sync(s) && IsNew(s, leaf)
    ensures Sync(Step(s, CentralAdds(leaf)))
  {
    hide InOrder, AddLeaf, Only, Indexed, AddressTaken, HasLeaf;
    var now := Step(s, CentralAdds(leaf));
    if !HasLeaf(s.central, leaf.id) && !AddressTaken(s.central, leaf) {
      IdsAfterAdd(s.central, leaf);
      assert AddIds(now.adds) == AddIds(s.adds) + [leaf.id];
      OrderGrows(s, now, leaf.id);
    }
  }


  lemma CentralFailsKeepsSync(s: State, id: u16)
    requires Sync(s)
    ensures Sync(Step(s, CentralFails(id)))
  {
    var now := Step(s, CentralFails(id));
    if HasLeaf(s.central, id) {
      var k := PositionOf(s.central, id);
      IdsAfterFail(s.central, id);
      DistinctIdsOf(s.central);
      OnlyMinus(Coming(s), AtCentral(s), k);
      AtCentralAfterFail(s, id);
      assert Coming(now) == Coming(s);
    }
  }


  lemma AtCentralAfterFail(s: State, id: u16)
    requires Indexed(s.central) && HasLeaf(s.central, id)
    ensures AtCentral(Step(s, CentralFails(id))) == AtCentral(s) - {id}
  {
    hide RemoveLeaf;
    IdsAfterFail(s.central, id);
    DistinctIdsOf(s.central);
    SpliceMembers(LeafIds(s.central), PositionOf(s.central, id));
  }

  lemma NextIsWelcome(s: State)
    requires Sync(s) && s.adds != []
    ensures !HasLeaf(s.ls, s.adds[0].id) && !AddressTaken(s.ls, s.adds[0])
  {
    assert Coming(s)[|s.ls|] == s.adds[0].id;
    assert forall i | 0 <= i < |s.ls| :: Coming(s)[i] == s.ls[i].id;
  }

  lemma WelcomeAfterAdd(s: State, now: State)
    requires Welcome(s) && s.adds != [] && !HasLeaf(s.ls, s.adds[0].id)
    requires now.ls == AddLeaf(s.ls, s.adds[0]) && now.adds == s.adds[1..]
    ensures Welcome(now)
  {
    assert forall i | 0 <= i < |now.adds| :: now.adds[i] == s.adds[i+1];
    assert now.ls == s.ls + [FreshLeaf(s.adds[0], Trunc(|s.ls|))];
    forall i | 0 <= i < |now.adds| ensures !AddressTaken(now.ls, now.adds[i]) {
      assert !SameAddress(s.adds[0], s.adds[i+1]) && !AddressTaken(s.ls, s.adds[i+1]);
    }
  }

  lemma Shift(l: seq<u16>, x: u16, r: seq<u16>)
    ensures (l + [x]) + r == l + ([x] + r)
  {
  }

  lemma ComingAfterAdd(s: State, now: State)
    requires s.adds != [] && now.adds == s.adds[1..] && LeafIds(now.ls) == LeafIds(s.ls) + [s.adds[0].id]
    ensures Coming(now) == Coming(s)
  {
    hide LeafIds;
    assert AddIds(s.adds) == [s.adds[0].id] + AddIds(now.adds);
    Shift(LeafIds(s.ls), s.adds[0].id, AddIds(now.adds));
  }

  lemma SpineAddsKeepsSync(s: State)
    requires Sync(s)
    ensures Sync(Step(s, SpineAdds))
    ensures s.adds != [] ==> LeafIds(Step(s, SpineAdds).ls) == LeafIds(s.ls) + [s.adds[0].id]
  {
    hide AddLeaf, Only, Welcome, Indexed, HasLeaf, AddressTaken, Coming, LeafIds, Distinct;
    var now := Step(s, SpineAdds);
    if s.adds != [] {
      NextIsWelcome(s);
      IdsAfterAdd(s.ls, s.adds[0]);
      WelcomeAfterAdd(s, now);
      ComingAfterAdd(s, now);
      forall id | id in now.stored ensures HasLeaf(now.ls, id) {
        KnownByPosition(s.ls, id);
        KnownByPosition(now.ls, id);
      }
    }
  }


  lemma SpineFailsKeepsSync(s: State)
    requires Sync(s)
    ensures Sync(Step(s, SpineFails))
  {
    var now := Step(s, SpineFails);
    if s.fails != [] {
      var x := s.fails[0];
      assert s.fails == [x] + now.fails;
      KnownByPosition(s.ls, x);
      if HasLeaf(s.ls, x) {
        SpineLosesKeepsSync(s, now, x);
      }
    }
  }

  lemma OrderShrinks(s: State, now: State, k: nat)
    requires InOrder(s) && k < |Coming(s)| && Coming(s)[k] !in AtCentral(s)
    requires now.central == s.central && Coming(now) == Coming(s)[..k] + Coming(s)[k+1..]
    ensures InOrder(now)
  {
    OnlyWithout(Coming(s), AtCentral(s), k);
    assert AtCentral(s) - {Coming(s)[k]} == AtCentral(s);
  }

  lemma WelcomeAfterLoss(s: State, now: State, x: u16)
    requires Welcome(s) && Indexed(s.ls) && HasLeaf(s.ls, x)
    requires now.ls == RemoveLeaf(s.ls, x) && now.adds == s.adds
    ensures Welcome(now)
  {
    hide RemoveLeaf;
    forall i | 0 <= i < |now.ls|
      ensures exists j :: 0 <= j < |s.ls| && now.ls[i].mgmt == s.ls[j].mgmt && now.ls[i].address == s.ls[j].address
    {
      RemoveLeafAt(s.ls, x, i);
    }
  }

  lemma SpineLosesKeepsSync(s: State, now: State, x: u16)
    requires Sync(s) && HasLeaf(s.ls, x) && x !in AtCentral(s)
    requires now.ls == RemoveLeaf(s.ls, x) && now.central == s.central && now.adds == s.adds
    requires forall y | y in now.fails :: y in s.fails
    requires now.stored == s.stored - {x} && now.serving == s.serving - {x}
    ensures Sync(now)
  {
    hide RemoveLeaf, InOrder, Welcome, Indexed, HasLeaf;
    var k := PositionOf(s.ls, x);
    IdsAfterFail(s.ls, x);
    WelcomeAfterLoss(s, now, x);
    assert Coming(now) == Coming(s)[..k] + Coming(s)[k+1..] && Coming(s)[k] == x;
    OrderShrinks(s, now, k);
    forall id | id in now.stored ensures HasLeaf(now.ls, id) {
      StillThere(s.ls, x, id);
    }
  }


  lemma StillThere(ls: seq<LeafRec>, id: u16, x: u16)
    requires Indexed(ls) && HasLeaf(ls, id) && HasLeaf(ls, x) && x != id
    ensures HasLeaf(RemoveLeaf(ls, id), x)
  {
    var k := PositionOf(ls, id);
    var j :| 0 <= j < |ls| && ls[j].id == x;
    RemoveLeafAt(ls, id, if j < k then j else j - 1);
  }

  lemma StepKeepsSync(s: State, e: Event)
    requires Sync(s) && Enabled(s, e)
    ensures Sync(Step(s, e))
  {
    match e
    case CentralAdds(leaf) => CentralAddsKeepsSync(s, leaf);
    case CentralFails(id) => CentralFailsKeepsSync(s, id);
    case SpineAdds => SpineAddsKeepsSync(s);
    case SpineFails => SpineFailsKeepsSync(s);
    case _ => StoredKeepsSync(s, e);
  }

  lemma StoredKeepsSync(s: State, e: Event)
    requires Sync(s) && (e.Fetch? || e.Serve? || e.Deliver?)
    ensures Sync(Step(s, e))
  {
    hide Only, Distinct, RemoveLeaf, AddLeaf, Indexed;
    var now := Step(s, e);
    assert Coming(now) == Coming(s) && AtCentral(now) == AtCentral(s);
    forall id | id in now.stored ensures HasLeaf(now.ls, id) {
      if id !in s.stored {
        KnownByPosition(s.ls, id);
      }
    }
  }

  // ---------- what a controller has stored ----------

  /** The index that a leaf is given at central. */
  lemma CentralPlace(s: State, id: u16)
    requires Sync(s) && HasLeaf(s.ls, id) && HasLeaf(s.central, id)
    ensures var k := PositionOf(s.central, id);
            k < |s.central| && s.central[k].index == k && k + FailedAhead(s, id) == PositionOf(s.ls, id)
  {
    var n, keep, l := PositionOf(s.ls, id), AtCentral(s), LeafIds(s.central);
    KnownByPosition(s.ls, id);
    KnownByPosition(s.central, id);
    var front, back := LeafIds(s.ls)[..n], Coming(s)[n+1..];
    assert Coming(s) == front + [id] + back;
    OnlyConcat(front + [id], back, keep);
    OnlyConcat(front, [id], keep);
    assert Only([id], keep) == [id] by { assert [id][..0] == []; }
    assert l[|Only(front, keep)|] == id;
    DistinctIdsOf(s.central);
  }

  /** The stored index is the leaf's position, less what the controller is ahead. */
  ghost predicate StoredOk(s: State, lead: imap<u16, int>, i: nat)
    requires i < |s.ls| && forall id: u16 :: id in lead
  {
    var id := s.ls[i].id;
    id in s.stored ==> s.stored[id] + lead[id] == i
  }

  ghost predicate Inv(s: State, lead: imap<u16, int>) {
    Sync(s) && (forall id: u16 :: id in lead) && forall i | 0 <= i < |s.ls| :: StoredOk(s, lead, i)
  }

  ghost function Leads(s: State, es: seq<Event>): (lead: imap<u16, int>)
    ensures forall id: u16 :: id in lead
  {
    imap id: u16 :: Lead(s, es, id)
  }

  lemma PlaceOf(ls: seq<LeafRec>, i: nat)
    requires Indexed(ls) && i < |ls|
    ensures PositionOf(ls, ls[i].id) == i && ls[i].index == i && HasLeaf(ls, ls[i].id)
  {
  }

  /** The spine loses a leaf: those behind it move down. */
  lemma LossKeepsInv(s: State, was: imap<u16, int>, now: imap<u16, int>)
    requires Inv(s, was) && (forall id: u16 :: id in now)
    requires forall id: u16 :: now[id] == if Moves(s, SpineFails, id) then was[id] - 1 else was[id]
    ensures Inv(Step(s, SpineFails), now)
  {
    hide RemoveLeaf, Indexed, Sync;
    var after := Step(s, SpineFails);
    StepKeepsSync(s, SpineFails);
    forall i | 0 <= i < |after.ls| ensures StoredOk(after, now, i) {
      if s.fails != [] && HasLeaf(s.ls, s.fails[0]) {
        LeafAfterLoss(s, i);
        assert StoredOk(s, was, Skip(PositionOf(s.ls, s.fails[0]), i));
      } else {
        NothingLost1(s);
        assert StoredOk(s, was, i);
      }
    }
  }

  lemma NothingLost1(s: State)
    requires s.fails == [] || !HasLeaf(s.ls, s.fails[0])
    ensures var now := Step(s, SpineFails); now.ls == s.ls && now.stored == s.stored && now.central == s.central
    ensures forall id :: !Moves(s, SpineFails, id)
  {
    if s.fails != [] {
      KnownByPosition(s.ls, s.fails[0]);
    }
  }

  lemma LeafAfterLoss(s: State, i: nat)
    requires Sync(s) && s.fails != [] && HasLeaf(s.ls, s.fails[0]) && i < |Step(s, SpineFails).ls|
    ensures var now, k := Step(s, SpineFails), PositionOf(s.ls, s.fails[0]);
            && Skip(k, i) < |s.ls| && now.ls[i].id == s.ls[Skip(k, i)].id != s.fails[0]
            && now.stored == s.stored - {s.fails[0]}
            && (Moves(s, SpineFails, now.ls[i].id) <==> k <= i)
  {
    KnownByPosition(s.ls, s.fails[0]);
    RemoveLeafAt(s.ls, s.fails[0], i);
    PlaceOf(s.ls, Skip(PositionOf(s.ls, s.fails[0]), i));
    PlaceOf(s.ls, PositionOf(s.ls, s.fails[0]));
  }

  /** Nothing happens between the spine and its controllers. */
  lemma OthersKeepInv(s: State, e: Event, lead: imap<u16, int>)
    requires Inv(s, lead) && Enabled(s, e) && (e.CentralAdds? || e.CentralFails? || e.SpineAdds? || e.Serve?)
    ensures Inv(Step(s, e), lead)
  {
    hide Sync;
    var after := Step(s, e);
    StepKeepsSync(s, e);
    forall i | 0 <= i < |after.ls| ensures StoredOk(after, lead, i) {
      if i < |s.ls| {
        assert after.ls[i] == s.ls[i] && StoredOk(s, lead, i);
      } else {
        NewIsNotStored(s);
      }
    }
  }

  lemma NewIsNotStored(s: State)
    requires Sync(s) && s.adds != []
    ensures s.adds[0].id !in s.stored
    ensures Step(s, SpineAdds).ls == s.ls + [FreshLeaf(s.adds[0], Trunc(|s.ls|))]
  {
    NextIsWelcome(s);
  }

  /** One controller gets an index. */
  lemma OneHears(s: State, after: State, id: u16, v: u16, was: imap<u16, int>, now: imap<u16, int>)
    requires Inv(s, was) && Sync(after) && after.ls == s.ls && HasLeaf(s.ls, id) && (forall x: u16 :: x in now)
    requires forall x: u16 | x != id :: now[x] == was[x]
    requires after.stored == s.stored[id := v] && v + now[id] == PositionOf(s.ls, id)
    ensures Inv(after, now)
  {
    hide Indexed;
    forall i | 0 <= i < |s.ls| ensures StoredOk(after, now, i) {
      PlaceOf(s.ls, i);
      assert StoredOk(s, was, i);
    }
  }

  lemma FetchKeepsInv(s: State, id: u16, was: imap<u16, int>, now: imap<u16, int>)
    requires Inv(s, was) && Starts(s, id) && (forall x: u16 :: x in now)
    requires forall x: u16 :: now[x] == if x == id then FailedAhead(s, id) else was[x]
    ensures Inv(Step(s, Fetch(id)), now)
  {
    hide Sync, FailedAhead;
    CentralPlace(s, id);
    StepKeepsSync(s, Fetch(id));
    OneHears(s, Step(s, Fetch(id)), id, s.central[PositionOf(s.central, id)].index, was, now);
  }

  lemma UpdateKeepsInv(s: State, was: imap<u16, int>, now: imap<u16, int>)
    requires Inv(s, was) && (forall x: u16 :: x in now)
    requires forall x: u16 :: now[x] == if Hears(s, Deliver, x) then 0 else was[x]
    ensures Inv(Step(s, Deliver), now)
  {
    hide Sync;
    var after := Step(s, Deliver);
    StepKeepsSync(s, Deliver);
    if s.queue != [] && s.queue[0] in s.serving {
      var id := s.queue[0];
      ServesIsThere(s, id);
      PlaceOf(s.ls, PositionOf(s.ls, id));
      OneHears(s, after, id, s.ls[PositionOf(s.ls, id)].index, was, now);
    } else {
      forall i | 0 <= i < |s.ls| ensures StoredOk(after, now, i) {
        assert StoredOk(s, was, i);
      }
    }
  }

  lemma ServesIsThere(s: State, id: u16)
    requires Sync(s) && id in s.serving
    ensures HasLeaf(s.ls, id) && PositionOf(s.ls, id) < |s.ls| && Indexed(s.ls)
  {
    KnownByPosition(s.ls, id);
  }

  /** All controllers know their index, and nothing is under way. */
  ghost predicate Fresh(s: State) {
    && Inv(s, Leads(s, []))
    && LeafIds(s.central) == LeafIds(s.ls) && s.adds == [] && s.fails == [] && s.queue == []
  }

  lemma LeadStep(s: State, es: seq<Event>)
    requires es != []
    ensures var most, now, e := es[..|es|-1], Run(s, es[..|es|-1]), es[|es|-1];
            && Run(s, es) == Step(now, e)
            && forall x: u16 :: Leads(s, es)[x] ==
                 if e == Fetch(x) && Starts(now, x) then FailedAhead(now, x)
                 else if Hears(now, e, x) then 0
                 else if Moves(now, e, x) then Leads(s, most)[x] - 1
                 else Leads(s, most)[x]
  {
  }

  lemma {:induction false} RunKeepsInv(s: State, es: seq<Event>)
    requires Fresh(s) && Possible(s, es)
    ensures Inv(Run(s, es), Leads(s, es))
  {
    hide Inv, Step, FailedAhead, Enabled;
    if es != [] {
      var most, e := es[..|es|-1], es[|es|-1];
      var was := Run(s, most);
      RunKeepsInv(s, most);
      LeadStep(s, es);
      if e.SpineFails? {
        LossKeepsInv(was, Leads(s, most), Leads(s, es));
      } else if e.Deliver? {
        UpdateKeepsInv(was, Leads(s, most), Leads(s, es));
      } else if e.Fetch? && Starts(was, e.leafID) {
        FetchKeepsInv(was, e.leafID, Leads(s, most), Leads(s, es));
      } else {
        assert Leads(s, es) == Leads(s, most);
        if e.Fetch? {
          NoFetch(was, e.leafID);
        } else {
          OthersKeepInv(was, e, Leads(s, most));
        }
      }
    }
  }

  lemma NoFetch(s: State, id: u16)
    requires !Starts(s, id)
    ensures Step(s, Fetch(id)) == s
  {
  }

  /** At any time, and whatever is under way, a leaf controller has stored the position of its leaf at the
      spine if and only if the spine has handled exactly those failures in front of the leaf that the
      controller knows of. */
  lemma StoredIffLevel(s: State, es: seq<Event>, i: nat)
    requires Fresh(s) && Possible(s, es)
    requires var now := Run(s, es); i < |now.ls| && now.ls[i].id in now.stored
    ensures Run(s, es).stored[Run(s, es).ls[i].id] == i <==> Lead(s, es, Run(s, es).ls[i].id) == 0
  {
    RunKeepsInv(s, es);
    assert StoredOk(Run(s, es), Leads(s, es), i);
  }
}
