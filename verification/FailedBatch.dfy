/** A batch of failed servers, as core/leafHealthManager.go removes it one server at a time, and what
    the batch amounts to. */
module FailedBatch {
  import opened Words
  import opened TopologySpec
  import opened WorkerRanges

  /** `a` comes before `b`. */
  ghost predicate Before(cs: seq<ServerInfo>, a: u16, b: u16) {
    exists i, j :: 0 <= i < j < |cs| && cs[i].id == a && cs[j].id == b
  }

  ghost predicate Among(cs: seq<ServerInfo>, id: u16) {
    exists i :: 0 <= i < |cs| && cs[i].id == id
  }

  function AllIds(cs: seq<ServerInfo>): (ids: set<u16>)
    ensures forall i | 0 <= i < |cs| :: cs[i].id in ids
  {
    set i | 0 <= i < |cs| :: cs[i].id
  }

  /** The servers behind a removed one: what RemoveServer reports. */
  ghost function Behind(cs: seq<ServerInfo>, id: u16): set<u16> {
    set b | b in AllIds(cs) && b != id && Before(cs, id, b)
  }

  /** The survivors that had a failed server before them. */
  ghost function Moved(cs: seq<ServerInfo>, gone: set<u16>): set<u16> {
    set b | b in AllIds(cs) && b !in gone && exists a :: a in gone && Before(cs, a, b)
  }

  /** The leaf and the map of updated servers while a batch is processed. */
  datatype Batch = Batch(leaf: LeafRec, updated: set<u16>)

  /** One round: forget the failed server as an updated one, remove it, note those behind it. */
  ghost function FailOne(b: Batch, id: u16): Batch {
    var updated := b.updated - {id};
    if HasServer(b.leaf, id) then
      Batch(DropServers(b.leaf, {id}), updated + Behind(Contents(b.leaf.servers), id))
    else Batch(b.leaf, updated)
  }

  ghost function FailAll(leaf: LeafRec, ids: seq<u16>): Batch {
    if ids == [] then Batch(leaf, {}) else FailOne(FailAll(leaf, ids[..|ids|-1]), ids[|ids|-1])
  }

  // ---------- removals keep the order ----------

  lemma BeforeSnoc(cs: seq<ServerInfo>, c: ServerInfo, a: u16, b: u16)
    ensures Before(cs + [c], a, b) <==> Before(cs, a, b) || (b == c.id && Among(cs, a))
  {
    var ds := cs + [c];
    if Before(ds, a, b) {
      var i, j :| 0 <= i < j < |ds| && ds[i].id == a && ds[j].id == b;
      assert cs[i].id == a;
    }
    if Before(cs, a, b) {
      var i, j :| 0 <= i < j < |cs| && cs[i].id == a && cs[j].id == b;
      assert ds[i].id == a && ds[j].id == b;
    }
    if b == c.id && Among(cs, a) {
      var i :| 0 <= i < |cs| && cs[i].id == a;
      assert ds[i].id == a && ds[|cs|].id == b;
    }
  }

  lemma AmongKept(cs: seq<ServerInfo>, gone: set<u16>, a: u16)
    requires a !in gone
    ensures Among(Keep(cs, gone), a) <==> Among(cs, a)
  {
    KeepMembers(cs, gone);
    var kept := Keep(cs, gone);
    if Among(kept, a) {
      var i :| 0 <= i < |kept| && kept[i].id == a;
      assert kept[i] in cs;
    }
    if Among(cs, a) {
      var i :| 0 <= i < |cs| && cs[i].id == a;
      assert cs[i] in kept;
    }
  }

  lemma {:induction false} BeforeKept(cs: seq<ServerInfo>, gone: set<u16>, a: u16, b: u16)
    requires a !in gone && b !in gone
    ensures Before(Keep(cs, gone), a, b) <==> Before(cs, a, b)
  {
    if cs != [] {
      var most, c := cs[..|cs|-1], cs[|cs|-1];
      BeforeKept(most, gone, a, b);
      BeforeSnoc(most, c, a, b);
      assert most + [c] == cs;
      AmongKept(most, gone, a);
      BeforeSnoc(Keep(most, gone), c, a, b);
      if c.id in gone {
        assert Keep(most, gone) + [] == Keep(most, gone);
      }
    }
  }

  lemma KeptIds(cs: seq<ServerInfo>, gone: set<u16>)
    ensures AllIds(Keep(cs, gone)) == AllIds(cs) - gone
  {
    forall id ensures id in AllIds(Keep(cs, gone)) <==> id in AllIds(cs) - gone {
      KeepMembers(cs, gone);
      assert forall i | 0 <= i < |Keep(cs, gone)| :: Keep(cs, gone)[i] in Keep(cs, gone);
      if id !in gone {
        AmongKept(cs, gone, id);
        assert Among(cs, id) <==> id in AllIds(cs);
        assert Among(Keep(cs, gone), id) <==> id in AllIds(Keep(cs, gone));
      }
    }
  }

  /** With unique IDs, behind a server are the later positions. */
  lemma BehindAt(cs: seq<ServerInfo>, id: u16, r: nat)
    requires r < |cs| && forall i | 0 <= i < |cs| :: cs[i].id == id <==> i == r
    ensures Behind(cs, id) == set j | r < j < |cs| :: cs[j].id
  {
    forall j | r < j < |cs| ensures cs[j].id in Behind(cs, id) {
      assert cs[r].id == id && Before(cs, id, cs[j].id);
    }
  }

  // ---------- the batch ----------

  /** Who is behind a server after some have gone. */
  lemma BehindKept(cs: seq<ServerInfo>, done: set<u16>, id: u16, b: u16)
    requires id !in done
    ensures b in Behind(Keep(cs, done), id) <==> b in AllIds(cs) && b !in done && b != id && Before(cs, id, b)
  {
    hide Keep, Before;
    KeptIds(cs, done);
    if b !in done {
      BeforeKept(cs, done, id, b);
    }
  }

  /** Who is moved when one more fails. */
  lemma MovedWithOneMore(cs: seq<ServerInfo>, done: set<u16>, id: u16, b: u16)
    ensures b in Moved(cs, done + {id}) <==>
            b in AllIds(cs) && b !in done && b != id && (b in Moved(cs, done) || Before(cs, id, b))
  {
    hide Before;
    if b in Moved(cs, done + {id}) {
      var a :| a in done + {id} && Before(cs, a, b);
      assert a == id || a in done;
    } else if Before(cs, id, b) {
      assert id in done + {id};
    } else if b in Moved(cs, done) {
      var a :| a in done && Before(cs, a, b);
      assert a in done + {id};
    }
  }

  lemma MovedStep(cs: seq<ServerInfo>, done: set<u16>, id: u16)
    requires id !in done
    ensures Moved(cs, done + {id}) == Moved(cs, done) - {id} + Behind(Keep(cs, done), id)
  {
    hide Behind, Before, Keep;
    forall b ensures b in Moved(cs, done + {id}) <==> b in Moved(cs, done) - {id} + Behind(Keep(cs, done), id) {
      BehindKept(cs, done, id, b);
      MovedWithOneMore(cs, done, id, b);
    }
  }

  lemma HasServerMeans(l: LeafRec, id: u16)
    ensures HasServer(l, id) <==> id in AllIds(Contents(l.servers))
  {
    var cs := Contents(l.servers);
    if HasServer(l, id) {
      var i :| 0 <= i < |l.servers| && l.servers[i].id == id;
      assert cs[i].id == id;
    }
    if id in AllIds(cs) {
      var i :| 0 <= i < |cs| && cs[i].id == id;
      assert l.servers[i].id == id;
    }
  }

  lemma NothingMoved(cs: seq<ServerInfo>)
    ensures Moved(cs, {}) == {} && Keep(cs, {}) == cs
  {
    KeepAll(cs, {});
  }

  /** A batch of distinct children of the leaf, in any order: the other children stay in their order
      with their ranges tiled afresh, and exactly those survivors are reported that had a failed
      server before them. */
  lemma {:induction false} BatchOutcome(leaf: LeafRec, ids: seq<u16>)
    requires DistinctInfos(Contents(leaf.servers))
    requires forall i, j | 0 <= i < j < |ids| :: ids[i] != ids[j]
    requires ToSet(ids) <= AllIds(Contents(leaf.servers))
    ensures FailAll(leaf, ids).updated == Moved(Contents(leaf.servers), ToSet(ids))
    ensures FailAll(leaf, ids).leaf == if ids == [] then leaf else DropServers(leaf, ToSet(ids))
    ensures Contents(FailAll(leaf, ids).leaf.servers) == Keep(Contents(leaf.servers), ToSet(ids))
  {
    hide Keep, Contents, Moved, Behind, DropServers;
    var cs := Contents(leaf.servers);
    if ids == [] {
      NothingMoved(cs);
      assert ToSet(ids) == {};
    } else {
      var most, id := ids[..|ids|-1], ids[|ids|-1];
      var done := ToSet(most);
      assert ToSet(ids) == done + {id} by {
        assert forall i | 0 <= i < |most| :: most[i] == ids[i];
        assert forall x | x in ToSet(ids) :: x == id || x in done;
      }
      BatchOutcome(leaf, most);
      var b := FailAll(leaf, most);
      KeptIds(cs, done);
      HasServerMeans(b.leaf, id);
      MovedStep(cs, done, id);
      DropServersTiles(b.leaf, {id});
      KeepKeep(cs, done, {id});
      if most != [] {
        DropServersCompose(leaf, done, {id});
      } else {
        assert done == {} && done + {id} == {id};
      }
    }
  }

  /** So the order of the batch does not matter. */
  lemma BatchIsOrderIndependent(leaf: LeafRec, a: seq<u16>, b: seq<u16>)
    requires DistinctInfos(Contents(leaf.servers))
    requires forall i, j | 0 <= i < j < |a| :: a[i] != a[j]
    requires forall i, j | 0 <= i < j < |b| :: b[i] != b[j]
    requires ToSet(a) == ToSet(b) <= AllIds(Contents(leaf.servers))
    ensures FailAll(leaf, a) == FailAll(leaf, b)
  {
    BatchOutcome(leaf, a);
    BatchOutcome(leaf, b);
    assert a == [] ==> b == [] by { if b != [] { assert b[0] in ToSet(b); } }
    assert b == [] ==> a == [] by { if a != [] { assert a[0] in ToSet(a); } }
  }
}
