/** The wire form of a topology (core/model/topology.go): what EncodeToTopoInfo writes and what
    NewDCNFromTopoInfo rebuilds from it. Worker ranges do not travel, only counts. */
module Codec {
  import opened Words
  import opened TopologySpec
  import opened WorkerRanges
  import opened SpineContents

  datatype SpineInfo = SpineInfo(id: u16, address: string, leaves: seq<LeafInfo>)

  /** The count that is sent. The comparison is strict. */
  function SentCount(s: ServerRec): u16 {
    if s.last > s.first then Wrap(s.last - s.first + 1) else 0
  }

  function EncodeServer(s: ServerRec): ServerInfo {
    ServerInfo(s.id, s.address, s.port, SentCount(s))
  }

  function EncodeServers(ss: seq<ServerRec>): (r: seq<ServerInfo>)
    ensures |r| == |ss|
  {
    seq(|ss|, i requires 0 <= i < |ss| => EncodeServer(ss[i]))
  }

  function EncodeLeaf(l: LeafRec): LeafInfo {
    LeafInfo(l.id, l.address, l.mgmt, l.dsPort, l.usPort, l.index, EncodeServers(l.servers))
  }

  function EncodeLeaves(ls: seq<LeafRec>): (r: seq<LeafInfo>)
    ensures |r| == |ls|
  {
    seq(|ls|, i requires 0 <= i < |ls| => EncodeLeaf(ls[i]))
  }

  /** Ranges are handed out afresh; a leaf without workers ends at 65535. */
  function DecodeLeaf(info: LeafInfo): LeafRec {
    LeafRec(info.id, info.address, info.mgmt, info.dsPort, info.usPort, info.index,
            0, Wrap(Sum16(info.servers) - 1), Lay(info.servers))
  }

  function DecodeLeaves(infos: seq<LeafInfo>): (r: seq<LeafRec>)
    ensures |r| == |infos|
  {
    seq(|infos|, i requires 0 <= i < |infos| => DecodeLeaf(infos[i]))
  }

  /** Whatever was sent, the rebuilt leaf is tiled. */
  lemma DecodedIsTiled(info: LeafInfo)
    ensures LeafTiled(DecodeLeaf(info)) && Contents(DecodeLeaf(info).servers) == info.servers
  {
    ContentsOfLay(info.servers);
  }

  /** The last worker ID is the number of workers less one, modulo 2^16: 65535 for a leaf without workers. */
  lemma DecodedEnd(info: LeafInfo)
    ensures DecodeLeaf(info).first == 0 && DecodeLeaf(info).last == (Total(info.servers) + 65535) % 0x1_0000
    ensures Total(info.servers) == 0 ==> DecodeLeaf(info).last == 65535
  {
    SumIsTotal(info.servers);
  }

  /** The sent count is the real one for a range without workers or one that ends behind its start. */
  ghost predicate Sendable(s: ServerRec) {
    s.last > s.first || Count(s) == 0
  }

  lemma SentCountIsCountIff(s: ServerRec)
    ensures SentCount(s) == Count(s) <==> Sendable(s)
  {
  }

  lemma SentContents(ss: seq<ServerRec>)
    ensures EncodeServers(ss) == Contents(ss) <==> forall i | 0 <= i < |ss| :: Sendable(ss[i])
  {
    forall i | 0 <= i < |ss| ensures EncodeServers(ss)[i] == Contents(ss)[i] <==> Sendable(ss[i]) {
      SentCountIsCountIff(ss[i]);
    }
    if EncodeServers(ss) != Contents(ss) {
      assert exists i | 0 <= i < |ss| :: EncodeServers(ss)[i] != Contents(ss)[i];
    } else {
      assert forall i | 0 <= i < |ss| :: EncodeServers(ss)[i] == Contents(ss)[i];
    }
  }

  /** A tiled leaf survives the round trip, up to the stored end of a leaf without workers, exactly when
      the count of each of its servers does. */
  lemma LeafRoundTripIff(l: LeafRec)
    requires LeafTiled(l)
    ensures Canon(DecodeLeaf(EncodeLeaf(l))) == Canon(l) <==>
            forall i | 0 <= i < |l.servers| :: Sendable(l.servers[i])
  {
    var back := DecodeLeaf(EncodeLeaf(l));
    DecodedIsTiled(EncodeLeaf(l));
    SentContents(l.servers);
    assert Strip(back).servers == EncodeServers(l.servers);
    if EncodeServers(l.servers) == Contents(l.servers) {
      SameContentsSameLeaf(back, l);
    } else {
      assert Contents(Canon(back).servers) != Contents(Canon(l).servers);
    }
  }

  lemma SameContentsSameLeaf(a: LeafRec, b: LeafRec)
    requires LeafTiled(a) && LeafTiled(b)
    requires Strip(a) == Strip(b) && a.index == b.index
    ensures Canon(a) == Canon(b)
  {
    LeafIsLaid(a);
    LeafIsLaid(b);
  }

  /** With fewer than 2^16 workers the only range that is lost is that of a single worker. */
  lemma SendableIff(l: LeafRec, k: nat)
    requires LeafTiled(l) && Total(Contents(l.servers)) < WORD_SIZE && k < |l.servers|
    ensures Sendable(l.servers[k]) <==> Count(l.servers[k]) != 1
  {
    var cs := Contents(l.servers);
    TotalStep(cs, k);
    TotalMonotone(cs, k + 1, |cs|);
    assert cs[..|cs|] == cs;
    assert l.servers[k] == Lay(cs)[k];
    SumIsTotal(cs[..k]);
  }

  ghost predicate NoSingleWorker(l: LeafRec) {
    forall k | 0 <= k < |l.servers| :: Count(l.servers[k]) != 1
  }

  lemma LeafTripIff(l: LeafRec)
    requires LeafTiled(l) && Total(Contents(l.servers)) < WORD_SIZE
    ensures Canon(DecodeLeaf(EncodeLeaf(l))) == Canon(l) <==> NoSingleWorker(l)
  {
    LeafRoundTripIff(l);
    forall k | 0 <= k < |l.servers| { SendableIff(l, k); }
  }

  /** The children of a spine come back in order, with their indexes and with identical ranges, if and
      only if none of their servers has exactly one worker. */
  lemma RoundTripIff(ls: seq<LeafRec>)
    requires forall i | 0 <= i < |ls| :: LeafTiled(ls[i]) && Total(Contents(ls[i].servers)) < WORD_SIZE
    ensures CanonAll(DecodeLeaves(EncodeLeaves(ls))) == CanonAll(ls) <==>
            forall i | 0 <= i < |ls| :: NoSingleWorker(ls[i])
  {
    hide Canon, DecodeLeaf, EncodeLeaf, NoSingleWorker, LeafTiled, Contents;
    var back := CanonAll(DecodeLeaves(EncodeLeaves(ls)));
    forall i | 0 <= i < |ls| ensures back[i] == CanonAll(ls)[i] <==> NoSingleWorker(ls[i]) {
      LeafTripIff(ls[i]);
    }
  }

  /** The failing input: the worker of a one-worker server is gone after the trip. */
  lemma SingleWorkerIsLost(l: LeafRec)
    requires LeafTiled(l) && |l.servers| == 1 && Count(l.servers[0]) == 1
    ensures var back := DecodeLeaf(EncodeLeaf(l)); |back.servers| == 1 && Count(back.servers[0]) == 0
  {
    assert l.servers[0] == Lay(Contents(l.servers))[0] && Contents(l.servers)[..0] == [];
    DecodedIsTiled(EncodeLeaf(l));
    assert Contents(DecodeLeaf(EncodeLeaf(l)).servers)[0].workers == SentCount(l.servers[0]);
  }

  /** A second trip changes nothing any more, whatever the first one lost. */
  lemma SecondTripIsExact(l: LeafRec)
    requires LeafTiled(l) && Total(Contents(l.servers)) < WORD_SIZE
    ensures Canon(DecodeLeaf(EncodeLeaf(DecodeLeaf(EncodeLeaf(l))))) == Canon(DecodeLeaf(EncodeLeaf(l)))
  {
    var once := DecodeLeaf(EncodeLeaf(l));
    DecodedIsTiled(EncodeLeaf(l));
    SentTotal(l.servers);
    LeafRoundTripIff(once);
    forall k | 0 <= k < |once.servers| ensures Sendable(once.servers[k]) {
      SendableIff(once, k);
      SendableIff(l, k);
      SentCountIsCountIff(l.servers[k]);
      assert Contents(once.servers)[k].workers == SentCount(l.servers[k]);
    }
  }

  lemma {:induction false} SentTotal(ss: seq<ServerRec>)
    requires forall i | 0 <= i < |ss| :: SentCount(ss[i]) <= Count(ss[i])
    ensures Total(EncodeServers(ss)) <= Total(Contents(ss))
  {
    if ss != [] {
      var m := |ss| - 1;
      SentTotal(ss[..m]);
      assert EncodeServers(ss)[..m] == EncodeServers(ss[..m]) && Contents(ss)[..m] == Contents(ss[..m]);
    }
  }
}
