/** The lists of virtual clusters of core/vcManager.go: Go slices that share and reuse their buffers.

    A slice is a buffer and a length. Appending writes into the buffer while it has room, and removal
    shifts the tail of the buffer down, so a loop that still holds the old slice reads what the
    removal left there. */
module VCLists {
  import opened Words
  import opened TopologyTree
  import opened VCRegistry
  import opened VirtualClusters

  datatype Slice = Slice(buf: array<VirtualCluster>, len: nat)

  function IdsOf(vs: seq<VirtualCluster>): (cs: seq<u16>)
    ensures |cs| == |vs|
    ensures forall i | 0 <= i < |vs| :: cs[i] == vs[i].ClusterID
  {
    seq(|vs|, i requires 0 <= i < |vs| => vs[i].ClusterID)
  }

  function Spliced(vs: seq<VirtualCluster>, c: u16): seq<VirtualCluster> {
    var k := FirstAt(IdsOf(vs), c);
    if k == |vs| then vs else vs[..k] + vs[k+1..]
  }

  lemma SplicedIsPart(vs: seq<VirtualCluster>, c: u16)
    ensures forall i | 0 <= i < |Spliced(vs, c)| :: Spliced(vs, c)[i] in vs
  {
  }

  lemma IdsOfSpliced(vs: seq<VirtualCluster>, c: u16)
    ensures IdsOf(Spliced(vs, c)) == Without(IdsOf(vs), c)
  {
  }

  lemma IdsOfAppended(vs: seq<VirtualCluster>, v: VirtualCluster)
    ensures IdsOf(vs + [v]) == IdsOf(vs) + [v.ClusterID]
  {
  }

  class VCListMap {
    var internal: map<u16, Slice>

    ghost function Buffers(): set<array<VirtualCluster>>
      reads this
    {
      set k | k in internal :: internal[k].buf
    }

    /** No two keys share a buffer. */
    ghost predicate Valid()
      reads this
    {
      && (forall k | k in internal :: internal[k].len <= internal[k].buf.Length)
      && (forall j, k | j in internal && k in internal && j != k :: internal[j].buf != internal[k].buf)
    }

    ghost function At(k: u16): seq<VirtualCluster>
      requires Valid()
      reads this, Buffers()
    {
      if k in internal then internal[k].buf[..internal[k].len] else []
    }

    /** The lists by cluster ID, as the registry has them. */
    ghost function Ids(): map<u16, seq<u16>>
      requires Valid()
      reads this, Buffers()
    {
      map k | k in internal :: IdsOf(At(k))
    }

    twostate lemma AppendedIds(new keys: set<u16>, new vc: VirtualCluster)
      requires old(Valid()) && Valid() && internal.Keys == old(internal.Keys) + keys
      requires forall k :: At(k) == if k in keys then old(At(k)) + [vc] else old(At(k))
      ensures Ids() == AppendAt(old(Ids()), keys, vc.ClusterID)
    {
      forall k | k in internal ensures Ids()[k] == AppendAt(old(Ids()), keys, vc.ClusterID)[k] {
        IdsOfAppended(old(At(k)), vc);
        assert k in old(internal) ==> old(Ids())[k] == IdsOf(old(At(k)));
      }
    }

    twostate lemma RemovedIds(new keys: set<u16>, new c: u16)
      requires old(Valid()) && Valid() && internal.Keys == old(internal.Keys)
      requires forall k :: At(k) == if k in keys then Spliced(old(At(k)), c) else old(At(k))
      ensures Ids() == RemoveAt(old(Ids()), keys, c)
    {
      forall k | k in internal ensures Ids()[k] == RemoveAt(old(Ids()), keys, c)[k] {
        IdsOfSpliced(old(At(k)), c);
      }
    }

    constructor ()
      ensures Valid() && internal == map[]
    {
      internal := map[];
    }

    /** Go's append: in place while the buffer has room, otherwise into a new, larger buffer. */
    static method Append(slice: Slice, vc: VirtualCluster) returns (longer: Slice)
      requires slice.len <= slice.buf.Length
      modifies slice.buf
      ensures longer.len == slice.len + 1 <= longer.buf.Length
      ensures longer.buf[..longer.len] == old(slice.buf[..slice.len]) + [vc]
      ensures longer.buf == slice.buf || fresh(longer.buf)
    {
      if slice.len < slice.buf.Length {
        slice.buf[slice.len] := vc;
        return Slice(slice.buf, slice.len + 1);
      }
      var cap: nat :| slice.len < cap <= 2 * slice.len + 1;
      var buf := new VirtualCluster[cap](i => vc);
      forall i | 0 <= i < slice.len { buf[i] := slice.buf[i]; }
      return Slice(buf, slice.len + 1);
    }

    method AppendToVCList(key: u16, vc: VirtualCluster)
      requires Valid()
      modifies this, Buffers()
      ensures Valid()
      ensures forall b | b in Buffers() && b !in old(Buffers()) :: fresh(b)
      ensures internal.Keys == old(internal.Keys) + {key}
      ensures forall k :: At(k) == if k == key then old(At(k)) + [vc] else old(At(k))
    {
      var slice: Slice;
      if key in internal {
        slice := Append(internal[key], vc);
      } else {
        var buf := new VirtualCluster[1](i => vc);
        slice := Slice(buf, 1);
      }
      internal := internal[key := slice];
    }

    /** One buffer was shifted down from the position of a cluster, and its slice shortened. */
    twostate lemma AfterShift(new key: u16, new c: u16)
      requires old(Valid()) && key in old(internal)
      requires var was := old(internal[key]);
               var vcIdx := FirstAt(IdsOf(old(At(key))), c);
               && vcIdx < was.len && internal == old(internal)[key := Slice(was.buf, was.len - 1)]
               && was.buf[..was.len-1] == old(At(key))[..vcIdx] + old(At(key))[vcIdx+1..]
      requires forall k | k in old(internal) && k != key :: old(internal[k]).buf[..] == old(internal[k].buf[..])
      ensures Valid() && Buffers() == old(Buffers())
      ensures forall k :: At(k) == if k == key then Spliced(old(At(k)), c) else old(At(k))
    {
      assert forall k | k in internal :: internal[k].buf == old(internal[k]).buf;
      forall k ensures At(k) == if k == key then Spliced(old(At(k)), c) else old(At(k)) {
        if k in internal && k != key {
          var b := internal[k].buf;
          assert b[..internal[k].len] == b[..][..internal[k].len];
        }
      }
    }

    /** Splices out the first cluster with the ID of `vc`, by shifting the rest of the buffer down. */
    method RemoveFromVCList(key: u16, vc: VirtualCluster)
      requires Valid()
      modifies this, Buffers()
      ensures Valid() && Buffers() == old(Buffers())
      ensures internal.Keys == old(internal.Keys)
      ensures forall k | k in internal && k != key :: internal[k] == old(internal[k])
      ensures forall k :: At(k) == if k == key then Spliced(old(At(k)), vc.ClusterID) else old(At(k))
    {
      if key in internal {
        var vcList := internal[key];
        var vcIdx := IndexOf(vcList, vc.ClusterID);
        if vcIdx < vcList.len {
          ShiftDown(vcList, vcIdx);
          internal := internal[key := Slice(vcList.buf, vcList.len - 1)];
          AfterShift(key, vc.ClusterID);
        }
      }
    }

    static method IndexOf(vcList: Slice, clusterID: u16) returns (vcIdx: nat)
      requires vcList.len <= vcList.buf.Length
      ensures vcIdx == FirstAt(IdsOf(vcList.buf[..vcList.len]), clusterID)
    {
      for currIdx := 0 to vcList.len
        invariant forall j | 0 <= j < currIdx :: vcList.buf[j].ClusterID != clusterID
      {
        if vcList.buf[currIdx].ClusterID == clusterID {
          return currIdx;
        }
      }
      return vcList.len;
    }

    static method ShiftDown(vcList: Slice, vcIdx: nat)
      requires vcIdx < vcList.len <= vcList.buf.Length
      modifies vcList.buf
      ensures vcList.buf[..vcList.len-1] == old(vcList.buf[..vcIdx]) + old(vcList.buf[vcIdx+1..vcList.len])
    {
      for i := vcIdx to vcList.len - 1
        invariant forall j | 0 <= j < vcIdx :: vcList.buf[j] == old(vcList.buf[j])
        invariant forall j | vcIdx <= j < i :: vcList.buf[j] == old(vcList.buf[j+1])
        invariant forall j | i <= j < vcList.len :: vcList.buf[j] == old(vcList.buf[j])
      {
        vcList.buf[i] := vcList.buf[i+1];
      }
    }

    method DeleteVCList(key: u16)
      requires Valid()
      modifies this
      ensures Valid() && Buffers() <= old(Buffers()) && internal == old(internal) - {key}
      ensures Ids() == old(Ids()) - {key}
      ensures forall k :: At(k) == if k == key then [] else old(At(k))
    {
      internal := internal - {key};
    }

    /** The loop of AddVC over the members of the new cluster, in any order. */
    method AppendAll(keys: set<u16>, vc: VirtualCluster)
      requires Valid()
      modifies this, Buffers()
      ensures Valid()
      ensures forall b | b in Buffers() && b !in old(Buffers()) :: fresh(b)
      ensures internal.Keys == old(internal.Keys) + keys
      ensures forall k :: At(k) == if k in keys then old(At(k)) + [vc] else old(At(k))
      ensures Ids() == AppendAt(old(Ids()), keys, vc.ClusterID)
    {
      hide At, Valid, Buffers, Ids;
      var rest := keys;
      while rest != {}
        invariant Valid() && rest <= keys
        invariant forall b | b in Buffers() && b !in old(Buffers()) :: fresh(b)
        invariant internal.Keys == old(internal.Keys) + (keys - rest)
        invariant forall k :: At(k) == if k in keys - rest then old(At(k)) + [vc] else old(At(k))
        decreases rest
      {
        var k :| k in rest;
        AppendToVCList(k, vc);
        rest := rest - {k};
      }
      AppendedIds(keys, vc);
    }

    /** The loop of RemoveVC over the members of the cluster, in any order. */
    method RemoveAll(keys: set<u16>, vc: VirtualCluster)
      requires Valid()
      modifies this, Buffers()
      ensures Valid() && Buffers() == old(Buffers())
      ensures internal.Keys == old(internal.Keys)
      ensures forall k | k in internal && k !in keys :: internal[k] == old(internal[k])
      ensures forall k :: At(k) == if k in keys then Spliced(old(At(k)), vc.ClusterID) else old(At(k))
      ensures Ids() == RemoveAt(old(Ids()), keys, vc.ClusterID)
    {
      hide At, Valid, Buffers, Ids;
      var rest := keys;
      while rest != {}
        invariant Valid() && rest <= keys && Buffers() == old(Buffers())
        invariant internal.Keys == old(internal.Keys)
        invariant forall k | k in internal && (k !in keys || k in rest) :: internal[k] == old(internal[k])
        invariant forall k :: At(k) == if k in keys - rest then Spliced(old(At(k)), vc.ClusterID) else old(At(k))
        decreases rest
      {
        var k :| k in rest;
        RemoveFromVCList(k, vc);
        rest := rest - {k};
      }
      RemovedIds(keys, vc.ClusterID);
    }

    /** The loop of DetachLeaf over the servers a cluster has lost. */
    method RemoveEach(nodes: seq<Node>, vc: VirtualCluster)
      requires Valid()
      requires forall i, j | 0 <= i < j < |nodes| :: nodes[i].ID != nodes[j].ID
      modifies this, Buffers()
      ensures Valid() && Buffers() == old(Buffers())
      ensures internal.Keys == old(internal.Keys)
      ensures var keys := set n | n in nodes :: n.ID;
              && (forall k :: At(k) == if k in keys then Spliced(old(At(k)), vc.ClusterID) else old(At(k)))
              && Ids() == RemoveAt(old(Ids()), keys, vc.ClusterID)
    {
      hide At, Valid, Buffers, Ids;
      ghost var keys := set n | n in nodes :: n.ID;
      for i := 0 to |nodes|
        invariant Valid() && Buffers() == old(Buffers())
        invariant internal.Keys == old(internal.Keys)
        invariant forall k :: At(k) == if k in (set j | 0 <= j < i :: nodes[j].ID)
                                       then Spliced(old(At(k)), vc.ClusterID) else old(At(k))
      {
        RemoveFromVCList(nodes[i].ID, vc);
      }
      assert keys == set j | 0 <= j < |nodes| :: nodes[j].ID;
      RemovedIds(keys, vc.ClusterID);
    }
  }

  /** The two indexes of the manager: distinct, and sharing no buffer. */
  ghost predicate Apart(a: VCListMap, b: VCListMap)
    reads a, b
  {
    a != b && a.Valid() && b.Valid() && a.Buffers() !! b.Buffers()
  }

  /** The two loops of AddVC. */
  method AppendBoth(a: VCListMap, ka: set<u16>, b: VCListMap, kb: set<u16>, vc: VirtualCluster)
    requires Apart(a, b)
    modifies a, a.Buffers(), b, b.Buffers()
    ensures Apart(a, b)
    ensures a.Ids() == AppendAt(old(a.Ids()), ka, vc.ClusterID) && b.Ids() == AppendAt(old(b.Ids()), kb, vc.ClusterID)
    ensures forall k :: a.At(k) == if k in ka then old(a.At(k)) + [vc] else old(a.At(k))
    ensures forall k :: b.At(k) == if k in kb then old(b.At(k)) + [vc] else old(b.At(k))
  {
    hide VCListMap.At, VCListMap.Ids, VCListMap.Valid;
    a.AppendAll(ka, vc);
    b.AppendAll(kb, vc);
  }

  /** The two loops of RemoveVC. */
  method RemoveBoth(a: VCListMap, ka: set<u16>, b: VCListMap, kb: set<u16>, vc: VirtualCluster)
    requires Apart(a, b)
    modifies a, a.Buffers(), b, b.Buffers()
    ensures Apart(a, b) && a.Buffers() == old(a.Buffers()) && b.Buffers() == old(b.Buffers())
    ensures a.Ids() == RemoveAt(old(a.Ids()), ka, vc.ClusterID) && b.Ids() == RemoveAt(old(b.Ids()), kb, vc.ClusterID)
    ensures a.internal.Keys == old(a.internal.Keys) && b.internal.Keys == old(b.internal.Keys)
    ensures forall k | k in a.internal && k !in ka :: a.internal[k] == old(a.internal[k])
    ensures forall k | k in b.internal && k !in kb :: b.internal[k] == old(b.internal[k])
    ensures forall k :: a.At(k) == if k in ka then Spliced(old(a.At(k)), vc.ClusterID) else old(a.At(k))
    ensures forall k :: b.At(k) == if k in kb then Spliced(old(b.At(k)), vc.ClusterID) else old(b.At(k))
  {
    hide VCListMap.At, VCListMap.Ids, VCListMap.Valid;
    a.RemoveAll(ka, vc);
    b.RemoveAll(kb, vc);
  }
}
