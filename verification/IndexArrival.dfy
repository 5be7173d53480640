/** When every leaf controller ends with the right index, and the inputs on which one does not. */
module IndexArrival {
  import opened Words
  import opened TopologySpec
  import opened WorkerRanges
  import opened SpineContents
  import opened IdLists
  import opened IndexPropagation
  import opened IndexHistory

  // ---------- when everything arrives ----------

  /** No failure reaches the spine before the addition of its leaf. */
  ghost predicate NoOvertaking(s: State, es: seq<Event>) {
    es == [] ||
    (NoOvertaking(s, es[..|es|-1]) &&
     var now := Run(s, es[..|es|-1]);
     (es[|es|-1].SpineFails? && now.fails != [] ==> now.fails[0] !in AddIds(now.adds)))
  }

  lemma {:induction false} BehindIsQueued(s: State, es: seq<Event>, id: u16)
    requires Sync(s) && Possible(s, es) && NothingLost(s, es)
    requires id in Run(s, es).stored && Lead(s, es, id) < 0
    ensures id in Run(s, es).queue
  {
    hide Step, Moves, Hears, Starts, FailedAhead, Sync, NothingLost, Enabled;
    var most, e := es[..|es|-1], es[|es|-1];
    var was := Run(s, most);
    LeadStep(s, es);
    NotLost(s, es);
    if Moves(was, e, id) {
      MovedIsQueued(was, e, id);
    } else if !(e == Fetch(id) && Starts(was, id)) && !Hears(was, e, id) {
      Unheard(was, e, id);
      BehindIsQueued(s, most, id);
      StaysQueued(was, e, id);
    }
  }

  lemma MovedIsQueued(s: State, e: Event, id: u16)
    requires Moves(s, e, id)
    ensures id in Step(s, e).queue
  {
    var k, j := PositionOf(s.ls, s.fails[0]), PositionOf(s.ls, id);
    KnownByPosition(s.ls, id);
    KnownByPosition(s.ls, s.fails[0]);
    assert IdsFrom(s.ls, k + 1)[j - k - 1] == id;
  }

  lemma Unheard(s: State, e: Event, id: u16)
    requires !(e == Fetch(id) && Starts(s, id)) && !Hears(s, e, id) && id in Step(s, e).stored
    ensures id in s.stored
  {
  }

  lemma StaysQueued(s: State, e: Event, id: u16)
    requires id in s.queue && id in s.stored && !Hears(s, e, id)
    requires e.Deliver? && s.queue[0] in s.stored ==> s.queue[0] in s.serving
    ensures id in Step(s, e).queue
  {
    if e.Deliver? {
      assert s.queue == [s.queue[0]] + s.queue[1..];
    }
  }


  /** How the number of failures ahead of a leaf of the spine changes. */
  lemma FailedAheadAfter(s: State, e: Event, id: u16)
    requires Sync(s) && Enabled(s, e) && HasLeaf(s.ls, id) && HasLeaf(Step(s, e).ls, id)
    ensures Moves(s, e, id) ==> FailedAhead(Step(s, e), id) == FailedAhead(s, id) - 1
    ensures !Moves(s, e, id) ==> FailedAhead(Step(s, e), id) >= FailedAhead(s, id)
  {
    hide Sync, InOrder, Welcome, RemoveLeaf, AddLeaf, Only;
    var now, front := Step(s, e), LeafIds(s.ls)[..PositionOf(s.ls, id)];
    KnownByPosition(s.ls, id);
    match e
    case CentralAdds(leaf) => NewIsNotAhead(s, leaf, id);
    case CentralFails(x) =>
      if HasLeaf(s.central, x) {
        CentralIsIndexed(s);
        AtCentralAfterFail(s, x);
        OnlyGrows(front, AtCentral(now), AtCentral(s));
      }
    case SpineAdds => AddIsBehind(s, id);
    case SpineFails => LossAhead(s, id);
    case _ =>
  }

  lemma CentralIsIndexed(s: State)
    requires Sync(s)
    ensures Indexed(s.central) && Indexed(s.ls)
  {
  }

  lemma NewIsNotAhead(s: State, leaf: LeafInfo, id: u16)
    requires Sync(s) && IsNew(s, leaf) && HasLeaf(s.ls, id)
    ensures FailedAhead(Step(s, CentralAdds(leaf)), id) == FailedAhead(s, id)
  {
    hide Welcome, InOrder, AddLeaf;
    var now, front := Step(s, CentralAdds(leaf)), LeafIds(s.ls)[..PositionOf(s.ls, id)];
    if !HasLeaf(s.central, leaf.id) && !AddressTaken(s.central, leaf) {
      IdsAfterAdd(s.central, leaf);
      assert AtCentral(now) == AtCentral(s) + {leaf.id};
      assert forall x | x in front :: x in Coming(s);
      OnlySame(front, AtCentral(s), AtCentral(now));
    }
  }

  lemma AddIsBehind(s: State, id: u16)
    requires Sync(s) && HasLeaf(s.ls, id)
    ensures FailedAhead(Step(s, SpineAdds), id) == FailedAhead(s, id)
  {
    hide InOrder, Only;
    KnownByPosition(s.ls, id);
    if s.adds != [] {
      NewIsNotStored(s);
      var now, k := Step(s, SpineAdds), PositionOf(s.ls, id);
      KnownByPosition(now.ls, id);
      assert now.ls[k].id == id && PositionOf(now.ls, id) == k;
      assert LeafIds(now.ls)[..k] == LeafIds(s.ls)[..k];
    }
  }

  lemma LossPlaces(s: State, id: u16)
    requires Sync(s) && s.fails != [] && HasLeaf(s.ls, s.fails[0]) && HasLeaf(Step(s, SpineFails).ls, id)
    ensures var now, k, n := Step(s, SpineFails), PositionOf(s.ls, s.fails[0]), PositionOf(s.ls, id);
            && k < |s.ls| && n < |s.ls| && k != n && (Moves(s, SpineFails, id) <==> k < n)
            && PositionOf(now.ls, id) == (if n < k then n else n - 1)
            && LeafIds(now.ls) == LeafIds(s.ls)[..k] + LeafIds(s.ls)[k+1..] && now.central == s.central
  {
    hide InOrder, Welcome, RemoveLeaf, Moves, Indexed, HasLeaf, IdsFrom, Only;
    var now, k := Step(s, SpineFails), PositionOf(s.ls, s.fails[0]);
    KnownByPosition(now.ls, id);
    KnownByPosition(s.ls, s.fails[0]);
    var i := PositionOf(now.ls, id);
    LeafAfterLoss(s, i);
    PlaceOf(s.ls, Skip(k, i));
    IdsAfterFail(s.ls, s.fails[0]);
  }

  lemma LossAhead(s: State, id: u16)
    requires Sync(s) && HasLeaf(s.ls, id) && HasLeaf(Step(s, SpineFails).ls, id)
    ensures FailedAhead(Step(s, SpineFails), id) == FailedAhead(s, id) - if Moves(s, SpineFails, id) then 1 else 0
  {
    hide Sync, Only, Missing, Moves, HasLeaf, RemoveLeaf, Distinct, Step;
    var now, ids, keep := Step(s, SpineFails), LeafIds(s.ls), AtCentral(s);
    if s.fails != [] && HasLeaf(s.ls, s.fails[0]) {
      var k, n := PositionOf(s.ls, s.fails[0]), PositionOf(s.ls, id);
      LossPlaces(s, id);
      LossIsDistinct(s);
      LossInFront(ids, k, n, keep);
    } else {
      NothingLost1(s);
    }
  }

  lemma LossIsDistinct(s: State)
    requires Sync(s) && s.fails != []
    ensures Distinct(LeafIds(s.ls)) && s.fails[0] !in AtCentral(s)
  {
    DistinctIdsOf(s.ls);
  }


  /** A controller is never further ahead than central is. */
  lemma {:induction false} LeadIsBounded(s: State, es: seq<Event>, id: u16)
    requires Fresh(s) && Possible(s, es) && id in Run(s, es).stored
    ensures Lead(s, es, id) <= FailedAhead(Run(s, es), id)
  {
    hide Inv, Fresh, Step, Moves, Hears, Starts, FailedAhead, Enabled;
    if es != [] {
      var most, e := es[..|es|-1], es[|es|-1];
      var was := Run(s, most);
      RunKeepsInv(s, most);
      RunKeepsInv(s, es);
      LeadStep(s, es);
      SyncOf(was, Leads(s, most));
      SyncOf(Run(s, es), Leads(s, es));
      if e == Fetch(id) && Starts(was, id) {
        FetchLeavesTrees(was, id);
      } else if !Hears(was, e, id) {
        Unheard(was, e, id);
        LeadIsBounded(s, most, id);
        FailedAheadAfter(was, e, id);
      }
    }
  }

  lemma SyncOf(s: State, lead: imap<u16, int>)
    requires Inv(s, lead)
    ensures Sync(s) && forall id | id in s.stored :: HasLeaf(s.ls, id)
  {
  }

  lemma FetchLeavesTrees(s: State, id: u16)
    ensures FailedAhead(Step(s, Fetch(id)), id) == FailedAhead(s, id)
  {
  }

  /** Whatever the spine has or will have and central has failed is named in a message. */
  ghost predicate NoGhosts(s: State) {
    forall x | x in Coming(s) :: x in AtCentral(s) || x in s.fails
  }

  lemma {:induction false} RunHasNoGhosts(s: State, es: seq<Event>)
    requires Fresh(s) && Possible(s, es) && NoOvertaking(s, es)
    ensures NoGhosts(Run(s, es))
  {
    hide Inv, Fresh, Step, Enabled, NoGhosts;
    if es != [] {
      var most := es[..|es|-1];
      RunKeepsInv(s, most);
      SyncOf(Run(s, most), Leads(s, most));
      RunHasNoGhosts(s, most);
      GhostStep(Run(s, most), es[|es|-1]);
    } else {
      StartHasNoGhosts(s);
    }
  }

  lemma StartHasNoGhosts(s: State)
    requires Fresh(s)
    ensures NoGhosts(s)
  {
    assert Coming(s) == LeafIds(s.ls);
  }

  lemma GhostStep(s: State, e: Event)
    requires Sync(s) && NoGhosts(s) && Enabled(s, e)
    requires e.SpineFails? && s.fails != [] ==> s.fails[0] !in AddIds(s.adds)
    ensures NoGhosts(Step(s, e))
  {
    hide Sync, NoGhosts;
    match e
    case CentralAdds(leaf) => GhostAfterCentralAdds(s, leaf);
    case CentralFails(id) => GhostAfterCentralFails(s, id);
    case SpineAdds => GhostAfterSpineAdds(s);
    case SpineFails => GhostAfterLoss(s);
    case _ => GhostSame(s, Step(s, e));
  }

  lemma GhostSame(s: State, now: State)
    requires NoGhosts(s) && now.central == s.central && now.fails == s.fails && Coming(now) == Coming(s)
    ensures NoGhosts(now)
  {
    SameCentral(s, now);
  }

  lemma GhostAfterCentralFails(s: State, id: u16)
    requires Sync(s) && NoGhosts(s)
    ensures NoGhosts(Step(s, CentralFails(id)))
  {
    hide Sync, RemoveLeaf, AtCentral, Indexed;
    if HasLeaf(s.central, id) {
      CentralIsIndexed(s);
      AtCentralAfterFail(s, id);
      assert Coming(Step(s, CentralFails(id))) == Coming(s);
    }
  }

  lemma GhostAfterSpineAdds(s: State)
    requires Sync(s) && NoGhosts(s)
    ensures NoGhosts(Step(s, SpineAdds))
  {
    hide Sync, NoGhosts, AddLeaf, LeafIds, Coming;
    SpineAddsKeepsSync(s);
    if s.adds != [] {
      ComingAfterAdd(s, Step(s, SpineAdds));
      GhostSame(s, Step(s, SpineAdds));
    }
  }

  lemma SameCentral(s: State, now: State)
    requires now.central == s.central
    ensures AtCentral(now) == AtCentral(s)
  {
  }

  lemma GhostAfterCentralAdds(s: State, leaf: LeafInfo)
    requires Sync(s) && NoGhosts(s) && IsNew(s, leaf)
    ensures NoGhosts(Step(s, CentralAdds(leaf)))
  {
    hide InOrder, Welcome, AddLeaf;
    var now := Step(s, CentralAdds(leaf));
    if !HasLeaf(s.central, leaf.id) && !AddressTaken(s.central, leaf) {
      IdsAfterAdd(s.central, leaf);
      assert AddIds(now.adds) == AddIds(s.adds) + [leaf.id];
      assert Coming(now) == Coming(s) + [leaf.id];
      assert AtCentral(now) == AtCentral(s) + {leaf.id};
    }
  }

  lemma GhostAfterLoss(s: State)
    requires Sync(s) && NoGhosts(s) && (s.fails != [] ==> s.fails[0] !in AddIds(s.adds))
    ensures NoGhosts(Step(s, SpineFails))
  {
    hide Welcome, RemoveLeaf, InOrder, HasLeaf;
    var now := Step(s, SpineFails);
    if s.fails != [] {
      var x := s.fails[0];
      assert s.fails == [x] + now.fails;
      KnownByPosition(s.ls, x);
      SameCentral(s, now);
      if HasLeaf(s.ls, x) {
        IdsAfterFail(s.ls, x);
        DistinctIdsOf(s.ls);
        SpliceMembers(LeafIds(s.ls), PositionOf(s.ls, x));
      }
    }
  }

  /** In every interleaving in which no failure overtakes the addition of its leaf and no update is lost,
      once the messages from central and the updates have been handled, the spine has central's leaves and
      every controller has stored the position of its leaf. */
  lemma IndexesArrive(s: State, es: seq<Event>)
    requires Fresh(s) && Possible(s, es) && NothingLost(s, es) && NoOvertaking(s, es)
    requires var now := Run(s, es); now.adds == [] && now.fails == [] && now.queue == []
    ensures var now := Run(s, es);
            && LeafIds(now.central) == LeafIds(now.ls)
            && forall i | 0 <= i < |now.ls| && now.ls[i].id in now.stored :: now.stored[now.ls[i].id] == i
  {
    var now := Run(s, es);
    RunKeepsInv(s, es);
    RunHasNoGhosts(s, es);
    assert Coming(now) == LeafIds(now.ls);
    OnlyAll(LeafIds(now.ls), AtCentral(now));
    forall i | 0 <= i < |now.ls| && now.ls[i].id in now.stored ensures now.stored[now.ls[i].id] == i {
      var id := now.ls[i].id;
      LeadIsBounded(s, es, id);
      OnlyAll(LeafIds(now.ls)[..PositionOf(now.ls, id)], AtCentral(now));
      if Lead(s, es, id) < 0 {
        BehindIsQueued(s, es, id);
      }
      StoredIffLevel(s, es, i);
    }
  }

  /** The updates of one failure take as many deliveries as they name leaves. */
  lemma {:induction false} QueueDrains(s: State, n: nat)
    requires n <= |s.queue|
    ensures Run(s, seq(n, i => Deliver)).queue == s.queue[n..]
  {
    var es := seq(n, i => Deliver);
    if n > 0 {
      QueueDrains(s, n - 1);
      assert es[..n-1] == seq(n - 1, i => Deliver);
      assert s.queue[n-1..][1..] == s.queue[n..];
    }
  }

  // ---------- the failing inputs ----------

  lemma RunSnoc(s: State, es: seq<Event>, e: Event)
    ensures Run(s, es + [e]) == Step(Run(s, es), e)
  {
    assert (es + [e])[..|es|] == es;
  }

  lemma TwoLeaves(ls: seq<LeafRec>, a: u16, b: u16)
    requires Indexed(ls) && LeafIds(ls) == [a, b]
    ensures a != b && PositionOf(ls, a) == 0 && PositionOf(ls, b) == 1 && HasLeaf(ls, a) && HasLeaf(ls, b)
    ensures LeafIds(RemoveLeaf(ls, a)) == [b] && Indexed(RemoveLeaf(ls, a))
  {
    assert LeafIds(ls)[0] == a && LeafIds(ls)[1] == b;
    assert ls[0].id == a && ls[1].id == b;
    IdsAfterFail(ls, a);
  }

  lemma OneLeaf(ls: seq<LeafRec>, b: u16)
    requires Indexed(ls) && LeafIds(ls) == [b]
    ensures PositionOf(ls, b) == 0 && HasLeaf(ls, b) && ls[0].index == 0
  {
    assert LeafIds(ls)[0] == b;
  }

  /** Two leaves a and b; the controller of b starts. */
  ghost predicate TwoAtStart(s: State, a: u16, b: u16) {
    && Indexed(s.ls) && Indexed(s.central) && LeafIds(s.ls) == LeafIds(s.central) == [a, b]
    && s.adds == [] && s.fails == [] && s.queue == [] && s.stored == map[a := 0] && s.serving == {a}
  }

  lemma TwoAreFresh(s: State, a: u16, b: u16)
    requires TwoAtStart(s, a, b)
    ensures Fresh(s)
  {
    hide Only;
    TwoLeaves(s.ls, a, b);
    TwoLeaves(s.central, a, b);
    assert Coming(s) == LeafIds(s.ls);
    OnlyAll(Coming(s), AtCentral(s));
    assert s.ls[0].id == LeafIds(s.ls)[0] && s.ls[1].id == LeafIds(s.ls)[1];
  }

  /** Central fails a, the spine hears of it and fails a as well, and the update for b comes while b's
      controller has fetched its index and does not serve yet. If it fetched before central failed a, its
      index is wrong for good. */
  lemma UpdateLostAtStart(s: State, a: u16, b: u16)
    requires TwoAtStart(s, a, b)
    ensures Fresh(s)
    ensures var now := Run(s, [Fetch(b), CentralFails(a), SpineFails, Deliver, Serve(b)]);
            LeafIds(now.ls) == [b] && now.fails == [] && now.queue == [] && now.stored == map[b := 1]
  {
    hide Run, Step, TwoAtStart;
    TwoAreFresh(s, a, b);
    FetchThenFail(s, a, b);
    RunOfTwo(s, Fetch(b), CentralFails(a));
    TheRest(s, [Fetch(b), CentralFails(a)], a, b);
    assert [Fetch(b), CentralFails(a), SpineFails, Deliver, Serve(b)] ==
           [Fetch(b), CentralFails(a)] + [SpineFails] + [Deliver] + [Serve(b)];
  }

  /** If it fetched after central failed a, its index is wrong until the spine has failed a, and right then,
      although the update is lost. */
  lemma FetchAheadOfSpine(s: State, a: u16, b: u16)
    requires TwoAtStart(s, a, b)
    ensures var early := Run(s, [CentralFails(a), Fetch(b)]);
            LeafIds(early.ls) == [a, b] && early.queue == [] && early.stored == map[a := 0, b := 0]
    ensures var now := Run(s, [CentralFails(a), Fetch(b), SpineFails, Deliver, Serve(b)]);
            LeafIds(now.ls) == [b] && now.fails == [] && now.queue == [] && now.stored == map[b := 0]
  {
    hide Run, Step, TwoAtStart;
    FailThenFetch(s, a, b);
    RunOfTwo(s, CentralFails(a), Fetch(b));
    TheRest(s, [CentralFails(a), Fetch(b)], a, b);
    assert [CentralFails(a), Fetch(b), SpineFails, Deliver, Serve(b)] ==
           [CentralFails(a), Fetch(b)] + [SpineFails] + [Deliver] + [Serve(b)];
  }

  lemma RunOfTwo(s: State, x: Event, y: Event)
    ensures Run(s, [x, y]) == Step(Step(s, x), y)
  {
    RunOfNothing(s);
    RunSnoc(s, [], x);
    RunSnoc(s, [x], y);
    assert [x] == [] + [x] && [x, y] == [x] + [y];
  }

  lemma RunOfNothing(s: State)
    ensures Run(s, []) == s
  {
  }

  lemma FetchThenFail(s: State, a: u16, b: u16)
    requires TwoAtStart(s, a, b)
    ensures var now := Step(Step(s, Fetch(b)), CentralFails(a));
            a != b && now.ls == s.ls && Indexed(now.ls) && LeafIds(now.ls) == [a, b] && now.fails == [a] &&
              now.queue == [] &&
            now.stored == map[a := 0, b := 1] && now.serving == {a}
  {
    hide RemoveLeaf;
    TwoLeaves(s.ls, a, b);
    TwoLeaves(s.central, a, b);
  }

  lemma FailThenFetch(s: State, a: u16, b: u16)
    requires TwoAtStart(s, a, b)
    ensures var now := Step(Step(s, CentralFails(a)), Fetch(b));
            a != b && now.ls == s.ls && Indexed(now.ls) && LeafIds(now.ls) == [a, b] && now.fails == [a] &&
              now.queue == [] &&
            now.stored == map[a := 0, b := 0] && now.serving == {a}
  {
    hide RemoveLeaf;
    TwoLeaves(s.ls, a, b);
    TwoLeaves(s.central, a, b);
    OneLeaf(RemoveLeaf(s.central, a), b);
  }

  lemma TheRest(s: State, es: seq<Event>, a: u16, b: u16)
    requires var was := Run(s, es);
             && Indexed(was.ls) && LeafIds(was.ls) == [a, b] && was.fails == [a] && was.queue == []
             && was.stored.Keys == {a, b} && was.serving == {a}
    ensures var now := Run(s, es + [SpineFails] + [Deliver] + [Serve(b)]);
            LeafIds(now.ls) == [b] && now.fails == [] && now.queue == [] && now.stored == Run(s, es).stored - {a}
  {
    hide Run, RemoveLeaf;
    var was := Run(s, es);
    TwoLeaves(was.ls, a, b);
    RunSnoc(s, es, SpineFails);
    RunSnoc(s, es + [SpineFails], Deliver);
    RunSnoc(s, es + [SpineFails] + [Deliver], Serve(b));
    assert IdsFrom(was.ls, 1) == [b] by { assert LeafIds(was.ls)[1] == b; }
  }

  lemma ComesAndGoes(x: LeafInfo)
    ensures AddLeaf([], x) == [FreshLeaf(x, 0)] && HasLeaf(AddLeaf([], x), x.id)
    ensures RemoveLeaf(AddLeaf([], x), x.id) == []
  {
    assert AddLeaf([], x)[0].id == x.id;
  }

  lemma ComesSecond(x: LeafInfo, b: LeafInfo)
    requires x.id != b.id && !SameAddress(x, b)
    ensures LeafIds(AddLeaf([FreshLeaf(x, 0)], b)) == [x.id, b.id]
  {
  }

  /** A failure overtakes the addition of its leaf: central does not have the leaf, the spine has it for
      good, and a leaf that is added behind it has different indexes at the two. */
  lemma OvertakenLeafStays(s: State, x: LeafInfo, b: LeafInfo)
    requires s.ls == [] && s.central == [] && s.adds == [] && s.fails == [] && x.id != b.id && !SameAddress(x, b)
    ensures var now := Run(s, [CentralAdds(x), CentralFails(x.id), SpineFails, CentralAdds(b), SpineAdds, SpineAdds]);
            && now.adds == [] && now.fails == []
            && LeafIds(now.ls) == [x.id, b.id] && LeafIds(now.central) == [b.id]
  {
    hide Run, AddLeaf, RemoveLeaf, HasLeaf, AddressTaken;
    var one, two := s.(central := AddLeaf([], x), adds := [x]), s.(adds := [x], fails := [x.id]);
    var three := two.(fails := []);
    ComesAndGoes(x);
    ComesAndGoes(b);
    ComesSecond(x, b);
    NoneYet(x);
    NoneYet(b);
    assert Step(s, CentralAdds(x)) == one;
    assert Step(one, CentralFails(x.id)) == two;
    assert Step(two, SpineFails) == three;
    var four := three.(central := AddLeaf([], b), adds := [x, b]);
    assert Step(three, CentralAdds(b)) == four;
    var five := four.(ls := AddLeaf([], x), adds := [b]);
    assert Step(four, SpineAdds) == five;
    RunOfSix(s, CentralAdds(x), CentralFails(x.id), SpineFails, CentralAdds(b), SpineAdds, SpineAdds);
  }

  lemma NoneYet(x: LeafInfo)
    ensures !HasLeaf([], x.id) && !AddressTaken([], x) && PositionOf([], x.id) == 0
  {
  }

  lemma RunOfSix(s: State, a: Event, b: Event, c: Event, d: Event, e: Event, f: Event)
    ensures Run(s, [a, b, c, d, e, f]) == Step(Step(Step(Step(Step(Step(s, a), b), c), d), e), f)
  {
    hide Run, Step;
    RunOfNothing(s);
    RunSnoc(s, [], a);
    RunSnoc(s, [a], b);
    RunSnoc(s, [a, b], c);
    RunSnoc(s, [a, b, c], d);
    RunSnoc(s, [a, b, c, d], e);
    RunSnoc(s, [a, b, c, d, e], f);
    assert [a] == [] + [a] && [a, b] == [a] + [b] && [a, b, c] == [a, b] + [c] && [a, b, c, d] == [a, b, c] + [d];
    assert [a, b, c, d, e] == [a, b, c, d] + [e] && [a, b, c, d, e, f] == [a, b, c, d, e] + [f];
  }
}
