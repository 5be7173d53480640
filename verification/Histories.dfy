/** What is left of a run for one member of a set, one switch: it is on if something turned it on and
    nothing has turned it off since. */
module Histories {
  /** What one event does to the switch. */
  datatype Mark = On | Off | Same

  ghost predicate NoneOff(marks: seq<Mark>, start: nat) {
    forall m | start <= m < |marks| :: marks[m] != Off
  }

  ghost predicate TurnedOnAt(marks: seq<Mark>, k: nat)
    requires k < |marks|
  {
    marks[k] == On && NoneOff(marks, k + 1)
  }

  ghost predicate LeftOn(before: bool, marks: seq<Mark>) {
    (before && NoneOff(marks, 0)) || exists k: nat | k < |marks| :: TurnedOnAt(marks, k)
  }

  lemma OneMore(before: bool, marks: seq<Mark>, m: Mark)
    ensures LeftOn(before, marks + [m]) <==> m == On || (m == Same && LeftOn(before, marks))
  {
    var all, n := marks + [m], |marks|;
    assert all[n] == m;
    assert forall k: nat :: k <= n ==> (NoneOff(all, k) <==> NoneOff(marks, k) && m != Off) by {
      forall k: nat | k <= n ensures NoneOff(all, k) <==> NoneOff(marks, k) && m != Off {
        assert forall i | 0 <= i < n :: all[i] == marks[i];
      }
    }
    if k: nat :| k < |marks| && TurnedOnAt(marks, k) && m == Same {
      assert TurnedOnAt(all, k);
    }
    if k: nat :| k < |all| && TurnedOnAt(all, k) {
      assert k < n ==> TurnedOnAt(marks, k);
    }
    assert m == On ==> TurnedOnAt(all, n);
  }
}
