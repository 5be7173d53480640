/** Whole runs of the leaf's health manager (core/leafHealthManager.go): pings, marking scans and the
    removal of what a scan marked, with servers joining and leaving in between. */
module HealthRuns {
  import opened Words

  /** A scan reads the clock anew for each server. */
  datatype Event =
    | Ping(id: u16, at: int)
    | Scan(clock: map<u16, int>)   // marks the servers that are silent for too long
    | Reap                         // removes the servers the last scan marked, by ID
    | Join(id: u16)
    | Leave(id: u16)

  /** `reaped` are the IDs that the health manager ever removed. */
  datatype State = State(live: set<u16>, healthy: set<u16>, ready: set<u16>, lastPing: map<u16, int>,
                         failed: set<u16>, reaped: set<u16>)

  function Start(live: set<u16>): State {
    State(live, {}, {}, map[], {}, {})
  }

  /** No ping, or none for `timeout`. The time of the last ping starts out as the zero time. */
  predicate Silent(s: State, id: u16, at: int, timeout: int) {
    id in s.lastPing ==> at - s.lastPing[id] >= timeout
  }

  /** A server that joins is a new node: nothing is left of an earlier one under the same ID. */
  function Step(s: State, e: Event, timeout: int): State {
    match e
    case Ping(id, at) =>
      if id !in s.live then s
      else s.(lastPing := s.lastPing[id := at], healthy := s.healthy + {id}, ready := s.ready + {id})
    case Scan(clock) =>
      var failed := set id | id in s.live && id in clock && Silent(s, id, clock[id], timeout) &&
                             id in s.healthy && id in s.ready;
      s.(failed := failed, healthy := s.healthy - failed, ready := s.ready - failed)
    case Reap => s.(live := s.live - s.failed, reaped := s.reaped + s.live * s.failed, failed := {})
    case Join(id) =>
      if id in s.live then s
      else s.(live := s.live + {id}, lastPing := s.lastPing - {id}, healthy := s.healthy - {id},
              ready := s.ready - {id})
    case Leave(id) => s.(live := s.live - {id})
  }

  function RunFrom(s: State, es: seq<Event>, timeout: int): State {
    if es == [] then s else Step(RunFrom(s, es[..|es|-1], timeout), es[|es|-1], timeout)
  }

  function Run(live: set<u16>, es: seq<Event>, timeout: int): State {
    RunFrom(Start(live), es, timeout)
  }

  // ---------- only silent servers are removed ----------

  /** Event k is the last ping of the server before position n, and the server stays from then on. */
  ghost predicate LastPingBefore(live: set<u16>, es: seq<Event>, timeout: int, id: u16, k: nat, n: nat) {
    && k < n <= |es| && es[k].Ping? && es[k].id == id
    && (forall m | k < m < n :: es[m].Ping? ==> es[m].id != id)
    && forall m | k <= m <= n :: id in Run(live, es[..m], timeout).live
  }

  /** Some scan found that the server's last ping was at least `timeout` old. */
  ghost predicate TimedOut(live: set<u16>, es: seq<Event>, timeout: int, id: u16) {
    exists k: nat, j: nat ::
      && j < |es| && es[j].Scan? && id in es[j].clock && LastPingBefore(live, es, timeout, id, k, j)
      && es[j].clock[id] - es[k].at >= timeout
  }

  /** A live server's time is that of its last ping since it joined. */
  ghost predicate TimeIsPing(live: set<u16>, es: seq<Event>, timeout: int, id: u16, at: int) {
    exists k: nat :: LastPingBefore(live, es, timeout, id, k, |es|) && es[k].at == at
  }

  ghost predicate Inv(live: set<u16>, es: seq<Event>, timeout: int) {
    var s := Run(live, es, timeout);
    && (forall id | id in s.live && id in s.healthy :: id in s.lastPing)
    && (forall id | id in s.live && id in s.lastPing :: TimeIsPing(live, es, timeout, id, s.lastPing[id]))
    && (forall id | id in s.failed + s.reaped :: TimedOut(live, es, timeout, id))
  }

  lemma LastPingStays(live: set<u16>, es: seq<Event>, more: seq<Event>, timeout: int, id: u16, k: nat, n: nat)
    requires LastPingBefore(live, es, timeout, id, k, n)
    ensures LastPingBefore(live, es + more, timeout, id, k, n)
  {
    forall m | k <= m <= n ensures (es + more)[..m] == es[..m] {
    }
  }

  lemma TimedOutStays(live: set<u16>, es: seq<Event>, e: Event, timeout: int, id: u16)
    requires TimedOut(live, es, timeout, id)
    ensures TimedOut(live, es + [e], timeout, id)
  {
    var k: nat, j: nat :|
      && j < |es| && es[j].Scan? && id in es[j].clock && LastPingBefore(live, es, timeout, id, k, j)
      && es[j].clock[id] - es[k].at >= timeout;
    LastPingStays(live, es, [e], timeout, id, k, j);
    assert (es + [e])[j] == es[j];
  }

  lemma RunSnoc(live: set<u16>, es: seq<Event>, e: Event, timeout: int)
    ensures Run(live, es + [e], timeout) == Step(Run(live, es, timeout), e, timeout)
  {
    assert (es + [e])[..|es|] == es;
  }

  /** One more event: the time of a server that is still live. */
  lemma TimeAfter(live: set<u16>, es: seq<Event>, e: Event, timeout: int, id: u16)
    requires Inv(live, es, timeout)
    requires var s := Run(live, es + [e], timeout); id in s.live && id in s.lastPing
    ensures TimeIsPing(live, es + [e], timeout, id, Run(live, es + [e], timeout).lastPing[id])
  {
    var all, s := es + [e], Run(live, es, timeout);
    RunSnoc(live, es, e, timeout);
    assert all[..|es|] == es && all[..|all|] == all;
    assert id in s.live;
    if e.Ping? && e.id == id {
      assert LastPingBefore(live, all, timeout, id, |es|, |all|);
    } else {
      var k: nat :| LastPingBefore(live, es, timeout, id, k, |es|) && es[k].at == s.lastPing[id];
      LastPingStays(live, es, [e], timeout, id, k, |es|);
      assert LastPingBefore(live, all, timeout, id, k, |all|);
    }
  }

  /** What a scan marks has timed out. */
  lemma MarkedTimedOut(live: set<u16>, es: seq<Event>, clock: map<u16, int>, timeout: int, id: u16)
    returns (k: nat)
    requires Inv(live, es, timeout) && id in Step(Run(live, es, timeout), Scan(clock), timeout).failed
    ensures id in clock && LastPingBefore(live, es, timeout, id, k, |es|) && clock[id] - es[k].at >= timeout
    ensures TimedOut(live, es + [Scan(clock)], timeout, id)
  {
    var s := Run(live, es, timeout);
    k :| LastPingBefore(live, es, timeout, id, k, |es|) && es[k].at == s.lastPing[id];
    LastPingStays(live, es, [Scan(clock)], timeout, id, k, |es|);
    assert (es + [Scan(clock)])[|es|] == Scan(clock);
  }

  lemma StepKeepsInv(live: set<u16>, es: seq<Event>, e: Event, timeout: int)
    requires Inv(live, es, timeout)
    ensures Inv(live, es + [e], timeout)
  {
    var s, now := Run(live, es, timeout), Run(live, es + [e], timeout);
    RunSnoc(live, es, e, timeout);
    forall id | id in now.live && id in now.lastPing
      ensures TimeIsPing(live, es + [e], timeout, id, now.lastPing[id])
    {
      TimeAfter(live, es, e, timeout, id);
    }
    forall id | id in now.failed + now.reaped ensures TimedOut(live, es + [e], timeout, id) {
      if id in s.failed + s.reaped {
        TimedOutStays(live, es, e, timeout, id);
      } else {
        var k := MarkedTimedOut(live, es, e.clock, timeout, id);
      }
    }
  }

  lemma {:induction false} RunKeepsInv(live: set<u16>, es: seq<Event>, timeout: int)
    ensures Inv(live, es, timeout)
  {
    if es != [] {
      RunKeepsInv(live, es[..|es|-1], timeout);
      StepKeepsInv(live, es[..|es|-1], es[|es|-1], timeout);
      assert es[..|es|-1] + [es[|es|-1]] == es;
    }
  }

  /** A server the health manager removed had pinged at least once, and it was there, without another
      ping, from its last ping to a scan at least `timeout` later. */
  lemma OnlySilentServersAreRemoved(live: set<u16>, es: seq<Event>, timeout: int, id: u16)
    requires id in Run(live, es, timeout).reaped
    ensures TimedOut(live, es, timeout, id)
  {
    RunKeepsInv(live, es, timeout);
  }

  /** But what is removed is the ID: a server that takes it over between the scan and the removal is
      removed in its place. */
  lemma NewcomerIsRemoved(id: u16, timeout: int)
    ensures id !in Run({id}, [Ping(id, 0), Scan(map[id := timeout]), Leave(id), Join(id), Reap], timeout).live
  {
    var a, b, c, d := Ping(id, 0), Scan(map[id := timeout]), Leave(id), Join(id);
    assert [a] == [] + [a] && [a, b] == [a] + [b] && [a, b, c] == [a, b] + [c] && [a, b, c, d] == [a, b, c] + [d];
    assert [a, b, c, d, Reap] == [a, b, c, d] + [Reap];
    RunSnoc({id}, [], a, timeout);
    RunSnoc({id}, [a], b, timeout);
    RunSnoc({id}, [a, b], c, timeout);
    RunSnoc({id}, [a, b, c], d, timeout);
    RunSnoc({id}, [a, b, c, d], Reap, timeout);
  }

  // ---------- pings of servers that are not there ----------

  function WithoutPings(es: seq<Event>, id: u16): seq<Event> {
    if es == [] then []
    else
      var most, e := WithoutPings(es[..|es|-1], id), es[|es|-1];
      if e.Ping? && e.id == id then most else most + [e]
  }

  ghost predicate NeverJoins(es: seq<Event>, id: u16) {
    forall i | 0 <= i < |es| :: es[i].Join? ==> es[i].id != id
  }

  lemma {:induction false} Absent(s: State, es: seq<Event>, id: u16, timeout: int)
    requires id !in s.live && NeverJoins(es, id)
    ensures id !in RunFrom(s, es, timeout).live
    ensures RunFrom(s, WithoutPings(es, id), timeout) == RunFrom(s, es, timeout)
  {
    if es != [] {
      var most, e := es[..|es|-1], es[|es|-1];
      Absent(s, most, id, timeout);
      assert (WithoutPings(most, id) + [e])[..|WithoutPings(most, id)|] == WithoutPings(most, id);
    }
  }

  lemma {:induction false} RunConcat(s: State, es: seq<Event>, more: seq<Event>, timeout: int)
    ensures RunFrom(s, es + more, timeout) == RunFrom(RunFrom(s, es, timeout), more, timeout)
  {
    if more == [] {
      assert es + more == es;
    } else {
      var most, e := more[..|more|-1], more[|more|-1];
      RunConcat(s, es, most, timeout);
      assert (es + more)[..|es + more|-1] == es + most;
    }
  }

  /** Once a server is gone, deleting every ping under its ID up to its next join (if there is one)
      from any continuation of the run, whatever else happens in it, leaves the final state as it is. */
  lemma LatePingsChangeNothing(live: set<u16>, before: seq<Event>, es: seq<Event>, rest: seq<Event>,
                               id: u16, timeout: int)
    requires id !in Run(live, before, timeout).live && NeverJoins(es, id)
    ensures Run(live, before + WithoutPings(es, id) + rest, timeout) == Run(live, before + es + rest, timeout)
  {
    Absent(Run(live, before, timeout), es, id, timeout);
    RunConcat(Start(live), before, es, timeout);
    RunConcat(Start(live), before, WithoutPings(es, id), timeout);
    RunConcat(Start(live), before + es, rest, timeout);
    RunConcat(Start(live), before + WithoutPings(es, id), rest, timeout);
  }

  // ---------- when the removed server is the marked one ----------

  /** The server joins while its ID is not in use. */
  ghost predicate JoinsAt(s: State, es: seq<Event>, id: u16, timeout: int, m: nat)
    requires m < |es|
  {
    es[m] == Join(id) && id !in RunFrom(s, es[..m], timeout).live
  }

  ghost predicate Rejoins(s: State, es: seq<Event>, id: u16, timeout: int) {
    exists m: nat | m < |es| :: JoinsAt(s, es, id, timeout, m)
  }

  ghost predicate StaysThroughout(s: State, es: seq<Event>, id: u16, timeout: int) {
    forall m | 0 <= m <= |es| :: id in RunFrom(s, es[..m], timeout).live
  }

  /** Who is back has joined. */
  lemma {:induction false} BackAgain(s: State, es: seq<Event>, id: u16, timeout: int)
    requires id !in s.live && id in RunFrom(s, es, timeout).live
    ensures Rejoins(s, es, id, timeout)
  {
    var most, e := es[..|es|-1], es[|es|-1];
    if id in RunFrom(s, most, timeout).live {
      BackAgain(s, most, id, timeout);
      var m: nat :| m < |most| && JoinsAt(s, most, id, timeout, m);
      assert most[..m] == es[..m];
      assert JoinsAt(s, es, id, timeout, m);
    } else {
      assert JoinsAt(s, es, id, timeout, |most|);
    }
  }

  /** A server that is there at the end was there all the time if and only if it was there at the start and
      did not join while it was absent. */
  lemma StaysIff(s: State, es: seq<Event>, id: u16, timeout: int)
    requires id in RunFrom(s, es, timeout).live
    ensures StaysThroughout(s, es, id, timeout) <==> id in s.live && !Rejoins(s, es, id, timeout)
  {
    assert es[..0] == [];
    forall m | 0 <= m <= |es| && id !in RunFrom(s, es[..m], timeout).live ensures Rejoins(s, es, id, timeout) {
      var mid, rest := RunFrom(s, es[..m], timeout), es[m..];
      assert es == es[..m] + rest;
      RunConcat(s, es[..m], rest, timeout);
      BackAgain(mid, rest, id, timeout);
      var n: nat :| n < |rest| && JoinsAt(mid, rest, id, timeout, n);
      RunConcat(s, es[..m], rest[..n], timeout);
      assert es[..m+n] == es[..m] + rest[..n];
      assert JoinsAt(s, es, id, timeout, m + n);
    }
  }

  ghost predicate NoScanNoReap(es: seq<Event>) {
    forall i | 0 <= i < |es| :: !es[i].Scan? && !es[i].Reap?
  }

  lemma {:induction false} MarksStay(s: State, es: seq<Event>, timeout: int)
    requires NoScanNoReap(es)
    ensures RunFrom(s, es, timeout).failed == s.failed
  {
    if es != [] {
      MarksStay(s, es[..|es|-1], timeout);
    }
  }

  /** The server itself had pinged, was silent for `timeout` at the scan after `n` events, and was there from
      its last ping up to the end. */
  ghost predicate WasMarked(live: set<u16>, all: seq<Event>, clock: map<u16, int>, timeout: int, id: u16, n: nat)
    requires n <= |all|
  {
    exists k: nat ::
      && LastPingBefore(live, all, timeout, id, k, n) && id in clock && clock[id] - all[k].at >= timeout
      && forall m | k <= m <= |all| :: id in Run(live, all[..m], timeout).live
  }

  /** Between a scan and the removal of what it marked anything else may happen. The removal takes a server
      with a marked ID. It is the server that was marked, silent for `timeout` at the scan and there all the
      time since its last ping, if and only if no server joined under the ID while it was free. */
  lemma RemovedIsMarkedIff(live: set<u16>, before: seq<Event>, clock: map<u16, int>, es: seq<Event>,
                           id: u16, timeout: int)
    requires NoScanNoReap(es)
    requires id in Run(live, before + [Scan(clock)], timeout).failed
    requires id in Run(live, before + [Scan(clock)] + es, timeout).live
    ensures var all := before + [Scan(clock)] + es;
            && id !in Run(live, all + [Reap], timeout).live
            && (WasMarked(live, all, clock, timeout, id, |before|) <==>
                !Rejoins(Run(live, before + [Scan(clock)], timeout), es, id, timeout))
  {
    var scanned, all := before + [Scan(clock)], before + [Scan(clock)] + es;
    var s := Run(live, scanned, timeout);
    RunKeepsInv(live, before, timeout);
    RunSnoc(live, before, Scan(clock), timeout);
    var k := MarkedTimedOut(live, before, clock, timeout, id);
    LastPingStays(live, before, [Scan(clock)] + es, timeout, id, k, |before|);
    assert before + ([Scan(clock)] + es) == all;
    RunConcat(Start(live), scanned, es, timeout);
    MarksStay(s, es, timeout);
    RunSnoc(live, all, Reap, timeout);
    StaysIff(s, es, id, timeout);
    ThereAfterScan(live, before, clock, es, id, timeout);
    if StaysThroughout(s, es, id, timeout) {
      assert all[k] == before[k];
      forall m | k <= m <= |all| ensures id in Run(live, all[..m], timeout).live {
        if m <= |before| {
          assert all[..m] == before[..m];
        }
      }
    }
  }

  /** The states after the scan, counted from the scan. */
  lemma ThereAfterScan(live: set<u16>, before: seq<Event>, clock: map<u16, int>, es: seq<Event>, id: u16, timeout: int)
    ensures var all := before + [Scan(clock)] + es;
            StaysThroughout(Run(live, before + [Scan(clock)], timeout), es, id, timeout) <==>
            forall m | |before| < m <= |all| :: id in Run(live, all[..m], timeout).live
  {
    var scanned, all := before + [Scan(clock)], before + [Scan(clock)] + es;
    forall n | 0 <= n <= |es|
      ensures Run(live, all[..|scanned|+n], timeout) == RunFrom(Run(live, scanned, timeout), es[..n], timeout)
    {
      assert all[..|scanned|+n] == scanned + es[..n];
      RunConcat(Start(live), scanned, es[..n], timeout);
    }
    forall m | |before| < m <= |all|
      ensures Run(live, all[..m], timeout) == RunFrom(Run(live, scanned, timeout), es[..m-|scanned|], timeout)
    {
      assert m == |scanned| + (m - |scanned|);
    }
  }
}
