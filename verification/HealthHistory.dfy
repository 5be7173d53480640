/** Who is there after a run of the health manager, and whom a scan marks, read off the events
    (core/leafHealthManager.go). */
module HealthHistory {
  import opened Words
  import opened Histories
  import opened HealthRuns

  // ---------- who is there ----------

  /** A server comes by joining, and goes by leaving or when a marked ID is removed. */
  ghost function LiveMark(s: State, e: Event, id: u16): Mark {
    if e == Join(id) then On
    else if e == Leave(id) || (e == Reap && id in s.failed) then Off
    else Same
  }

  ghost function LiveMarks(live: set<u16>, es: seq<Event>, timeout: int, id: u16): (marks: seq<Mark>)
    ensures |marks| == |es|
  {
    seq(|es|, k requires 0 <= k < |es| => LiveMark(Run(live, es[..k], timeout), es[k], id))
  }

  lemma LiveStep(s: State, e: Event, timeout: int, id: u16)
    ensures id in Step(s, e, timeout).live <==> LiveMark(s, e, id) == On || (LiveMark(s, e, id) == Same && id in s.live)
  {
  }

  /** A server is there if and only if it was at the start, or joined, and has neither left nor been removed
      since. */
  lemma {:induction false} LiveIff(live: set<u16>, es: seq<Event>, timeout: int, id: u16)
    ensures id in Run(live, es, timeout).live <==> LeftOn(id in live, LiveMarks(live, es, timeout, id))
  {
    hide Step, LiveMark;
    if es != [] {
      hide LeftOn;
      var most := es[..|es|-1];
      var mid := Run(live, most, timeout);
      LiveIff(live, most, timeout, id);
      LiveStep(mid, es[|es|-1], timeout, id);
      OneMore(id in live, LiveMarks(live, most, timeout, id), LiveMark(mid, es[|es|-1], id));
      assert forall k | 0 <= k < |most| :: most[..k] == es[..k];
      assert LiveMarks(live, es, timeout, id) == LiveMarks(live, most, timeout, id) + [LiveMark(mid, es[|es|-1], id)];
    }
  }

  // ---------- whom a scan marks ----------

  /** The k-th event is a scan that marks the server. */
  ghost predicate MarksAt(live: set<u16>, es: seq<Event>, timeout: int, id: u16, k: nat)
    requires k < |es|
  {
    es[k].Scan? && id in Run(live, es[..k+1], timeout).failed
  }

  ghost predicate UnmarkedSince(live: set<u16>, es: seq<Event>, timeout: int, id: u16, k: nat) {
    forall m: nat | k < m < |es| :: !MarksAt(live, es, timeout, id, m)
  }

  /** A server is healthy and ready from its ping to the next scan that marks it. */
  lemma {:induction false} HealthyIff(live: set<u16>, es: seq<Event>, timeout: int, id: u16, k: nat)
    requires LastPingBefore(live, es, timeout, id, k, |es|)
    ensures var s := Run(live, es, timeout);
            && id in s.live && id in s.lastPing && s.lastPing[id] == es[k].at
            && (id in s.healthy && id in s.ready <==> UnmarkedSince(live, es, timeout, id, k))
  {
    var most, e, n := es[..|es|-1], es[|es|-1], |es| - 1;
    assert es[..|es|] == es;
    if k < n {
      forall m | k <= m <= n ensures most[..m] == es[..m] {
      }
      HealthyIff(live, most, timeout, id, k);
      forall m: nat | k < m < n ensures MarksAt(live, most, timeout, id, m) <==> MarksAt(live, es, timeout, id, m) {
        assert most[..m+1] == es[..m+1];
      }
      assert es[..n+1] == es;
      assert UnmarkedSince(live, es, timeout, id, k) <==>
             UnmarkedSince(live, most, timeout, id, k) && !MarksAt(live, es, timeout, id, n);
      assert id in Run(live, es[..n], timeout).live;
    } else {
      assert id in Run(live, es[..k], timeout).live;
    }
  }

  /** A scan marks a server if and only if the server is there since its last ping, that ping is at least
      `timeout` old when the scan gets to it, and no scan has marked it since the ping. */
  lemma ScanMarksIff(live: set<u16>, es: seq<Event>, clock: map<u16, int>, timeout: int, id: u16)
    ensures id in Run(live, es + [Scan(clock)], timeout).failed <==>
            exists k: nat ::
              && LastPingBefore(live, es, timeout, id, k, |es|) && UnmarkedSince(live, es, timeout, id, k)
              && id in clock && clock[id] - es[k].at >= timeout
  {
    var s := Run(live, es, timeout);
    RunSnoc(live, es, Scan(clock), timeout);
    RunKeepsInv(live, es, timeout);
    if id in Run(live, es + [Scan(clock)], timeout).failed {
      var k := MarkedTimedOut(live, es, clock, timeout, id);
      HealthyIff(live, es, timeout, id, k);
    }
    if k: nat :|
      && LastPingBefore(live, es, timeout, id, k, |es|) && UnmarkedSince(live, es, timeout, id, k)
      && id in clock && clock[id] - es[k].at >= timeout
    {
      HealthyIff(live, es, timeout, id, k);
    }
  }

  ghost predicate NoScanNoReapAfter(es: seq<Event>, k: nat) {
    forall m | k < m < |es| :: !es[m].Scan? && !es[m].Reap?
  }

  /** The marked IDs are those that the last scan marked, until they are removed. */
  lemma {:induction false} MarkedIff(live: set<u16>, es: seq<Event>, timeout: int, id: u16)
    ensures id in Run(live, es, timeout).failed <==>
            exists k: nat | k < |es| :: MarksAt(live, es, timeout, id, k) && NoScanNoReapAfter(es, k)
  {
    if es != [] {
      var most, e, n := es[..|es|-1], es[|es|-1], |es| - 1;
      MarkedIff(live, most, timeout, id);
      assert es[..n+1] == es;
      forall k: nat | k < n
        ensures MarksAt(live, es, timeout, id, k) <==> MarksAt(live, most, timeout, id, k)
        ensures NoScanNoReapAfter(es, k) <==> NoScanNoReapAfter(most, k) && !e.Scan? && !e.Reap?
      {
        assert most[..k+1] == es[..k+1];
        assert forall m | 0 <= m < n :: most[m] == es[m];
      }
      if e.Scan? && id in Run(live, es, timeout).failed {
        assert MarksAt(live, es, timeout, id, n) && NoScanNoReapAfter(es, n);
      }
    }
  }

  /** The k-th event removes the server. */
  ghost predicate ReapsAt(live: set<u16>, es: seq<Event>, timeout: int, id: u16, k: nat)
    requires k < |es|
  {
    es[k] == Reap && id in Run(live, es[..k], timeout).live && id in Run(live, es[..k], timeout).failed
  }

  lemma {:induction false} ReapedIff(live: set<u16>, es: seq<Event>, timeout: int, id: u16)
    ensures id in Run(live, es, timeout).reaped <==> exists k: nat | k < |es| :: ReapsAt(live, es, timeout, id, k)
  {
    if es != [] {
      var most, n := es[..|es|-1], |es| - 1;
      ReapedIff(live, most, timeout, id);
      forall k: nat | k < n ensures ReapsAt(live, es, timeout, id, k) <==> ReapsAt(live, most, timeout, id, k) {
        assert most[..k] == es[..k];
      }
      assert es[..n] == most;
      assert ReapsAt(live, es, timeout, id, n) ==> id in Run(live, es, timeout).reaped;
    }
  }

  /** What a scan marked is gone after the removal, and nothing else is. */
  lemma RemovedIff(live: set<u16>, es: seq<Event>, clock: map<u16, int>, timeout: int, id: u16)
    ensures var all := es + [Scan(clock)] + [Reap];
            id in Run(live, all, timeout).live <==>
            && id in Run(live, es, timeout).live
            && !exists k: nat ::
                 && LastPingBefore(live, es, timeout, id, k, |es|) && UnmarkedSince(live, es, timeout, id, k)
                 && id in clock && clock[id] - es[k].at >= timeout
  {
    ScanMarksIff(live, es, clock, timeout, id);
    RunSnoc(live, es, Scan(clock), timeout);
    RunSnoc(live, es + [Scan(clock)], Reap, timeout);
  }
}
