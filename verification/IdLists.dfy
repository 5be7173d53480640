/** Lists of IDs, and the part of a list that is in a set, in the list's order. */
module IdLists {
  import opened Words

  function Only(ids: seq<u16>, keep: set<u16>): (r: seq<u16>)
    ensures |r| <= |ids|
  {
    if ids == [] then []
    else Only(ids[..|ids|-1], keep) + (if ids[|ids|-1] in keep then [ids[|ids|-1]] else [])
  }

  /** How many of the IDs are not in the set. */
  function Missing(ids: seq<u16>, keep: set<u16>): nat {
    |ids| - |Only(ids, keep)|
  }

  ghost predicate Distinct(ids: seq<u16>) {
    forall i, j | 0 <= i < j < |ids| :: ids[i] != ids[j]
  }

  lemma {:induction false} OnlyConcat(a: seq<u16>, b: seq<u16>, keep: set<u16>)
    ensures Only(a + b, keep) == Only(a, keep) + Only(b, keep)
  {
    if b == [] {
      assert a + b == a;
    } else {
      assert (a + b)[..|a + b|-1] == a + b[..|b|-1];
      OnlyConcat(a, b[..|b|-1], keep);
    }
  }

  lemma {:induction false} OnlySame(ids: seq<u16>, a: set<u16>, b: set<u16>)
    requires forall x | x in ids :: x in a <==> x in b
    ensures Only(ids, a) == Only(ids, b)
  {
    if ids != [] {
      OnlySame(ids[..|ids|-1], a, b);
    }
  }

  /** Taking an element out of the set is splicing it out of the list. */
  lemma {:induction false} OnlyWithout(ids: seq<u16>, keep: set<u16>, k: nat)
    requires Distinct(ids) && k < |ids|
    ensures Only(ids, keep - {ids[k]}) == Only(ids[..k] + ids[k+1..], keep)
  {
    var x, front, back := ids[k], ids[..k], ids[k+1..];
    assert ids == front + [x] + back;
    OnlyConcat(front + [x], back, keep - {x});
    OnlyConcat(front, [x], keep - {x});
    OnlyConcat(front, back, keep);
    OnlySame(front, keep, keep - {x});
    OnlySame(back, keep, keep - {x});
    assert Only([x], keep - {x}) == [] by { assert [x][..0] == []; }
  }

  lemma {:induction false} OnlyOnly(ids: seq<u16>, a: set<u16>, b: set<u16>)
    ensures Only(Only(ids, a), b) == Only(ids, a * b)
  {
    if ids != [] {
      var m := |ids| - 1;
      OnlyOnly(ids[..m], a, b);
      OnlyConcat(Only(ids[..m], a), if ids[m] in a then [ids[m]] else [], b);
      assert Only([ids[m]], b) == if ids[m] in b then [ids[m]] else [] by { assert [ids[m]][..0] == []; }
    }
  }
  lemma {:induction false} OnlyAll(ids: seq<u16>, keep: set<u16>)
    requires forall x | x in ids :: x in keep
    ensures Only(ids, keep) == ids
  {
    if ids != [] {
      OnlyAll(ids[..|ids|-1], keep);
    }
  }
  /** Removing an element from the selection. */
  lemma OnlyMinus(ids: seq<u16>, keep: set<u16>, k: nat)
    requires k < |Only(ids, keep)| && Distinct(Only(ids, keep)) && (forall x | x in Only(ids, keep) :: x in keep)
    ensures var l := Only(ids, keep); Only(ids, keep - {l[k]}) == l[..k] + l[k+1..]
  {
    var l := Only(ids, keep);
    OnlyWithout(l, keep, k);
    OnlyAll(l[..k] + l[k+1..], keep);
    OnlyOnly(ids, keep, keep - {l[k]});
    assert keep * (keep - {l[k]}) == keep - {l[k]};
  }
  lemma {:induction false} OnlyGrows(ids: seq<u16>, a: set<u16>, b: set<u16>)
    requires a <= b
    ensures |Only(ids, a)| <= |Only(ids, b)|
  {
    if ids != [] {
      OnlyGrows(ids[..|ids|-1], a, b);
    }
  }
  lemma LossInFront(ids: seq<u16>, k: nat, n: nat, keep: set<u16>)
    requires k < |ids| && n < |ids| && k != n && ids[k] !in keep && Distinct(ids)
    ensures var less, m := ids[..k] + ids[k+1..], if n < k then n else n - 1;
            Missing(less[..m], keep) == Missing(ids[..n], keep) - if k < n then 1 else 0
  {
    var less, m := ids[..k] + ids[k+1..], if n < k then n else n - 1;
    if k < n {
      var front := ids[..n];
      assert less[..m] == front[..k] + front[k+1..];
      OnlyWithout(front, keep, k);
      assert keep - {ids[k]} == keep;
    } else {
      assert less[..m] == ids[..n];
    }
  }
  lemma SpliceMembers(ids: seq<u16>, k: nat)
    requires Distinct(ids) && k < |ids|
    ensures forall x :: x in ids[..k] + ids[k+1..] <==> x in ids && x != ids[k]
  {
    forall x ensures x in ids[..k] + ids[k+1..] <==> x in ids && x != ids[k] {
      if x in ids && x != ids[k] {
        var i :| 0 <= i < |ids| && ids[i] == x;
        assert (ids[..k] + ids[k+1..])[if i < k then i else i - 1] == x;
      }
    }
  }
}
