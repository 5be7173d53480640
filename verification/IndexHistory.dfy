/** Who is there and who listens, read off the events of a run: the leaves of central and of the spine, the
    controllers that have fetched their index, and those that serve requests. */
module IndexHistory {
  import opened Words
  import opened TopologySpec
  import opened SpineContents
  import opened IdLists
  import opened IndexPropagation
  import opened Histories

  datatype Switch = IsAtCentral(id: u16) | IsAtSpine(id: u16) | HasFetched(id: u16) | Listens(id: u16)

  predicate IsOn(sw: Switch, s: State) {
    match sw
    case IsAtCentral(id) => HasLeaf(s.central, id)
    case IsAtSpine(id) => HasLeaf(s.ls, id)
    case HasFetched(id) => id in s.stored
    case Listens(id) => id in s.serving
  }

  /** No leaf has the ID or both addresses. */
  ghost predicate IsFree(ls: seq<LeafRec>, leaf: LeafInfo) {
    forall l | l in ls :: l.id != leaf.id && (l.mgmt != leaf.mgmt || l.address != leaf.address)
  }

  /** The spine fails the leaf, and its controller goes down with it. */
  predicate GoesDown(s: State, e: Event, id: u16) {
    e == SpineFails && s.fails != [] && s.fails[0] == id
  }

  ghost function MarkOf(sw: Switch, s: State, e: Event): Mark {
    match sw
    case IsAtCentral(id) =>
      if e.CentralAdds? && e.leaf.id == id && IsFree(s.central, e.leaf) then On
      else if e == CentralFails(id) then Off
      else Same
    case IsAtSpine(id) =>
      if e == SpineAdds && s.adds != [] && s.adds[0].id == id then On else if GoesDown(s, e, id) then Off else Same
    case HasFetched(id) =>
      if e == Fetch(id) && HasLeaf(s.ls, id) && HasLeaf(s.central, id) then On
      else if GoesDown(s, e, id) then Off
      else Same
    case Listens(id) =>
      if e == Serve(id) && id in s.stored then On else if GoesDown(s, e, id) then Off else Same
  }

  ghost function Marks(sw: Switch, s: State, es: seq<Event>): (marks: seq<Mark>)
    ensures |marks| == |es|
  {
    seq(|es|, k requires 0 <= k < |es| => MarkOf(sw, Run(s, es[..k]), es[k]))
  }

  // ---------- one event ----------

  lemma FreeIff(ls: seq<LeafRec>, leaf: LeafInfo)
    ensures IsFree(ls, leaf) <==> !HasLeaf(ls, leaf.id) && !AddressTaken(ls, leaf)
  {
    if IsFree(ls, leaf) {
      forall i | 0 <= i < |ls| ensures ls[i] in ls {
      }
    }
  }

  lemma AddedIsThere(ls: seq<LeafRec>, leaf: LeafInfo)
    requires Indexed(ls)
    ensures forall id :: HasLeaf(AddLeaf(ls, leaf), id) <==> HasLeaf(ls, id) || (id == leaf.id && IsFree(ls, leaf))
  {
    FreeIff(ls, leaf);
    var now := AddLeaf(ls, leaf);
    if IsFree(ls, leaf) {
      assert now[|ls|].id == leaf.id && forall i | 0 <= i < |ls| :: now[i] == ls[i];
    }
  }

  lemma RemovedIsGone(ls: seq<LeafRec>, x: u16)
    requires Indexed(ls)
    ensures forall id :: HasLeaf(RemoveLeaf(ls, x), id) <==> HasLeaf(ls, id) && id != x
  {
    KnownByPosition(ls, x);
    if HasLeaf(ls, x) {
      IdsAfterFail(ls, x);
      DistinctIdsOf(ls);
      SpliceMembers(LeafIds(ls), PositionOf(ls, x));
      forall id ensures HasLeaf(RemoveLeaf(ls, x), id) <==> HasLeaf(ls, id) && id != x {
        KnownByPosition(ls, id);
        KnownByPosition(RemoveLeaf(ls, x), id);
      }
    }
  }

  lemma SwitchStep(sw: Switch, s: State, e: Event)
    requires Sync(s) && Enabled(s, e)
    ensures IsOn(sw, Step(s, e)) <==> MarkOf(sw, s, e) == On || (MarkOf(sw, s, e) == Same && IsOn(sw, s))
  {
    hide AddLeaf, RemoveLeaf, InOrder, Welcome, HasLeaf, Only, AtCentral, PositionOf, AddressTaken, Coming;
    match e
    case CentralAdds(leaf) =>
      AddedIsThere(s.central, leaf);
      FreeIff(s.central, leaf);
    case CentralFails(id) => RemovedIsGone(s.central, id);
    case SpineAdds =>
      if s.adds != [] {
        NextIsWelcome(s);
        AddedIsThere(s.ls, s.adds[0]);
        FreeIff(s.ls, s.adds[0]);
      }
    case SpineFails =>
      if s.fails != [] {
        RemovedIsGone(s.ls, s.fails[0]);
        KnownByPosition(s.ls, s.fails[0]);
      }
    case Fetch(id) => KnownByPosition(s.central, id);
    case Serve(_) =>
    case Deliver =>
  }

  // ---------- whole runs ----------

  lemma {:induction false} RunKeepsSync(s: State, es: seq<Event>)
    requires Sync(s) && Possible(s, es)
    ensures Sync(Run(s, es))
  {
    hide Sync, Enabled, Step;
    if es != [] {
      RunKeepsSync(s, es[..|es|-1]);
      StepKeepsSync(Run(s, es[..|es|-1]), es[|es|-1]);
    }
  }

  /** The leaf is at central, or at the spine, or its controller has fetched its index, or listens, if
      and only if an event brought that about and none has undone it since. */
  lemma {:induction false} SwitchOfRun(sw: Switch, s: State, es: seq<Event>)
    requires Sync(s) && Possible(s, es)
    ensures IsOn(sw, Run(s, es)) <==> LeftOn(IsOn(sw, s), Marks(sw, s, es))
  {
    hide Sync, Step, Enabled, IsOn, MarkOf;
    if es != [] {
      hide LeftOn;
      var most := es[..|es|-1];
      var mid := Run(s, most);
      SwitchOfRun(sw, s, most);
      RunKeepsSync(s, most);
      SwitchStep(sw, mid, es[|es|-1]);
      OneMore(IsOn(sw, s), Marks(sw, s, most), MarkOf(sw, mid, es[|es|-1]));
      assert forall k | 0 <= k < |most| :: most[..k] == es[..k];
      assert Marks(sw, s, es) == Marks(sw, s, most) + [MarkOf(sw, mid, es[|es|-1])];
    }
  }

  lemma IdAt(ls: seq<LeafRec>, k: nat, i: nat)
    requires Indexed(ls) && k <= |ls| && i < |IdsFrom(ls, k)|
    ensures PositionOf(ls, IdsFrom(ls, k)[i]) == k + i && HasLeaf(ls, IdsFrom(ls, k)[i])
  {
    PlaceOf(ls, k + i);
  }

  lemma IsFrom(ls: seq<LeafRec>, k: nat, id: u16)
    requires Indexed(ls) && k <= |ls| && HasLeaf(ls, id) && k <= PositionOf(ls, id)
    ensures id in IdsFrom(ls, k)
  {
    KnownByPosition(ls, id);
    assert IdsFrom(ls, k)[PositionOf(ls, id) - k] == id;
  }

  lemma IdsBehind(ls: seq<LeafRec>, k: nat)
    requires Indexed(ls) && k <= |ls|
    ensures Distinct(IdsFrom(ls, k))
    ensures forall id :: id in IdsFrom(ls, k) <==> HasLeaf(ls, id) && k <= PositionOf(ls, id)
  {
    hide PositionOf, HasLeaf, Indexed, IdsFrom;
    var more := IdsFrom(ls, k);
    forall i | 0 <= i < |more| ensures PositionOf(ls, more[i]) == k + i && HasLeaf(ls, more[i]) {
      IdAt(ls, k, i);
    }
    forall id | HasLeaf(ls, id) && k <= PositionOf(ls, id) ensures id in more {
      IsFrom(ls, k, id);
    }
  }

  /** The leaves whose index a failure changes, and only these, are sent an update, once each. */
  lemma MovedAreQueued(s: State)
    requires Sync(s)
    ensures s.queue <= Step(s, SpineFails).queue
    ensures var more := Step(s, SpineFails).queue[|s.queue|..];
            Distinct(more) && forall id :: id in more <==> Moves(s, SpineFails, id)
  {
    hide IdsFrom, RemoveLeaf, InOrder, Welcome, HasLeaf;
    if s.fails != [] {
      var k := PositionOf(s.ls, s.fails[0]);
      KnownByPosition(s.ls, s.fails[0]);
      if k < |s.ls| {
        IdsBehind(s.ls, k + 1);
        assert Step(s, SpineFails).queue[|s.queue|..] == IdsFrom(s.ls, k + 1);
      }
    }
  }

  // ---------- listening ----------

  ghost predicate StaysUp(s: State, es: seq<Event>, id: u16, start: nat) {
    forall m | start <= m < |es| :: !GoesDown(Run(s, es[..m]), es[m], id)
  }

  /** A controller that fetched its index and then started to serve listens as long as its leaf is there. */
  lemma ListensFromServe(s: State, es: seq<Event>, id: u16, i: nat, j: nat)
    requires Sync(s) && Possible(s, es) && i < j < |es|
    requires es[i] == Fetch(id) && HasLeaf(Run(s, es[..i]).ls, id) && HasLeaf(Run(s, es[..i]).central, id)
    requires es[j] == Serve(id) && StaysUp(s, es, id, i)
    ensures id in Run(s, es).serving
  {
    hide Sync, HasLeaf, Step;
    PossibleBefore(s, es, j);
    var fetched, listens := Marks(HasFetched(id), s, es[..j]), Marks(Listens(id), s, es);
    forall m | 0 <= m < j ensures es[..j][..m] == es[..m] {
    }
    assert fetched[i] == On;
    forall m | i < m < j ensures fetched[m] != Off {
      assert !GoesDown(Run(s, es[..m]), es[m], id);
    }
    assert TurnedOnAt(fetched, i);
    SwitchOfRun(HasFetched(id), s, es[..j]);
    assert listens[j] == On;
    forall m | j < m < |es| ensures listens[m] != Off {
      assert !GoesDown(Run(s, es[..m]), es[m], id);
    }
    assert TurnedOnAt(listens, j);
    SwitchOfRun(Listens(id), s, es);
  }

  lemma {:induction false} PossibleBefore(s: State, es: seq<Event>, k: nat)
    requires Possible(s, es) && k <= |es|
    ensures Possible(s, es[..k])
  {
    if k < |es| {
      PossibleBefore(s, es[..|es|-1], k);
      assert es[..|es|-1][..k] == es[..k];
    } else {
      assert es[..k] == es;
    }
  }

  lemma DeliveryIsStored(s: State, id: u16)
    requires Sync(s) && s.queue != [] && s.queue[0] == id && id in s.serving
    ensures var now, k := Step(s, Deliver), PositionOf(s.ls, id);
            now.ls == s.ls && k < |s.ls| && id in now.stored && now.stored[id] == k
  {
    KnownByPosition(s.ls, id);
    PlaceOf(s.ls, PositionOf(s.ls, id));
  }

  /** Whoever listens when an update for it is delivered has its position then. */
  lemma ListenerHears(s: State, es: seq<Event>, id: u16, i: nat, j: nat)
    requires Sync(s) && Possible(s, es) && i < j < |es|
    requires es[i] == Fetch(id) && HasLeaf(Run(s, es[..i]).ls, id) && HasLeaf(Run(s, es[..i]).central, id)
    requires es[j] == Serve(id) && StaysUp(s, es, id, i)
    requires Run(s, es).queue != [] && Run(s, es).queue[0] == id
    ensures var now, k := Run(s, es + [Deliver]), PositionOf(Run(s, es).ls, id);
            now.ls == Run(s, es).ls && k < |now.ls| && id in now.stored && now.stored[id] == k
  {
    hide Sync, HasLeaf, Step, StaysUp;
    ListensFromServe(s, es, id, i, j);
    RunKeepsSync(s, es);
    assert (es + [Deliver])[..|es|] == es;
    DeliveryIsStored(Run(s, es), id);
  }

  // ---------- lost updates ----------

  ghost predicate Fetched(s: State, es: seq<Event>, id: u16) {
    LeftOn(id in s.stored, Marks(HasFetched(id), s, es))
  }

  ghost predicate Listening(s: State, es: seq<Event>, id: u16) {
    LeftOn(id in s.serving, Marks(Listens(id), s, es))
  }

  /** The k-th event delivers an update for a controller that has fetched its index and does not listen yet. */
  ghost predicate LosesUpdate(s: State, es: seq<Event>, k: nat)
    requires k < |es|
  {
    var now := Run(s, es[..k]);
    && es[k] == Deliver && now.queue != []
    && Fetched(s, es[..k], now.queue[0]) && !Listening(s, es[..k], now.queue[0])
  }

  /** No update is sent to a controller between its fetch and the start of its service. */
  ghost predicate NothingLost(s: State, es: seq<Event>) {
    forall k: nat | k < |es| :: !LosesUpdate(s, es, k)
  }

  lemma NotLost(s: State, es: seq<Event>)
    requires Sync(s) && Possible(s, es) && es != [] && NothingLost(s, es)
    ensures NothingLost(s, es[..|es|-1])
    ensures var now := Run(s, es[..|es|-1]);
            es[|es|-1] == Deliver && now.queue != [] && now.queue[0] in now.stored ==> now.queue[0] in now.serving
  {
    hide Sync, Step, Fetched, Listening, Marks, Enabled;
    var most, m := es[..|es|-1], |es| - 1;
    forall k: nat | k < m ensures !LosesUpdate(s, most, k) {
      assert most[..k] == es[..k] && !LosesUpdate(s, es, k);
    }
    assert !LosesUpdate(s, es, m);
    forall id ensures (Fetched(s, most, id) <==> id in Run(s, most).stored) &&
                      (Listening(s, most, id) <==> id in Run(s, most).serving)
    {
      WhoListens(s, most, id);
    }
  }

  lemma WhoListens(s: State, es: seq<Event>, id: u16)
    requires Sync(s) && Possible(s, es)
    ensures Fetched(s, es, id) <==> id in Run(s, es).stored
    ensures Listening(s, es, id) <==> id in Run(s, es).serving
  {
    SwitchOfRun(HasFetched(id), s, es);
    SwitchOfRun(Listens(id), s, es);
  }
}
