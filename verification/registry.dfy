/**
 The node's list of known peers and the three operations that edit it:
 adding a peer (never this node itself, never a record already present),
 removing every entry with a given address, and replacing the entry for an
 address. Equality of peers is whole-record equality: two records with the
 same address but different heights are different peers, so the list may
 hold one address more than once.
 */
module Registry {
  import opened Wire

  type Addr = string

  /** A remote node and the last block height it reported. */
  datatype Peer = Peer(addr: Addr, currentBlock: nat)

  /** Whether `a` is this node's own external address. */
  predicate IsSelf(ext: Option<Addr>, a: Addr) {
    ext == Some(a)
  }

  /** No entry is this node itself. */
  predicate NoSelf(ext: Option<Addr>, peers: seq<Peer>) {
    forall q :: q in peers ==> !IsSelf(ext, q.addr)
  }

  /** No record appears twice. */
  predicate Distinct(peers: seq<Peer>) {
    forall i, j :: 0 <= i < j < |peers| ==> peers[i] != peers[j]
  }

  /** The registry invariant that `AddPeer` establishes and every edit keeps. */
  predicate Wellformed(ext: Option<Addr>, peers: seq<Peer>) {
    NoSelf(ext, peers) && Distinct(peers)
  }

  lemma DistinctCons(h: Peer, w: seq<Peer>)
    requires h !in w && Distinct(w)
    ensures Distinct([h] + w)
  {
    var s := [h] + w;
    forall i, j | 0 <= i < j < |s|
      ensures s[i] != s[j]
    {
      assert s[j] == w[j - 1];
      if i > 0 {
        assert s[i] == w[i - 1];
      }
    }
  }

  lemma DistinctSnoc(w: seq<Peer>, p: Peer)
    requires p !in w && Distinct(w)
    ensures Distinct(w + [p])
  {
    var s := w + [p];
    forall i, j | 0 <= i < j < |s|
      ensures s[i] != s[j]
    {
      assert s[i] == w[i];
      if j < |w| {
        assert s[j] == w[j];
      }
    }
  }

  /** Adds `p` at the end unless it is this node or the very record is
      already present; entries already there are never touched. */
  function AddPeer(ext: Option<Addr>, peers: seq<Peer>, p: Peer): (r: seq<Peer>)
    ensures peers <= r
    ensures |r| <= |peers| + 1
    ensures |r| == |peers| + 1 <==> !IsSelf(ext, p.addr) && p !in peers
    ensures forall q :: q in r <==> q in peers || (q == p && !IsSelf(ext, p.addr))
    ensures Wellformed(ext, peers) ==> Wellformed(ext, r)
  {
    if IsSelf(ext, p.addr) || p in peers then peers
    else DistinctSnocIf(peers, p); peers + [p]
  }

  lemma DistinctSnocIf(peers: seq<Peer>, p: Peer)
    requires p !in peers
    ensures Distinct(peers) ==> Distinct(peers + [p])
  {
    if Distinct(peers) {
      DistinctSnoc(peers, p);
    }
  }

  /** Keeps, in order, exactly the entries whose address is not `a`. */
  function RemovePeer(peers: seq<Peer>, a: Addr): (r: seq<Peer>)
    ensures forall q :: q in r <==> q in peers && q.addr != a
    ensures |r| <= |peers|
    ensures Distinct(peers) ==> Distinct(r)
  {
    if |peers| == 0 then []
    else
      var rest := RemovePeer(peers[1..], a);
      if peers[0].addr == a then
        DistinctTail(peers);
        rest
      else
        DistinctTail(peers);
        DistinctConsIf(peers, rest);
        [peers[0]] + rest
  }

  lemma DistinctTail(peers: seq<Peer>)
    requires |peers| > 0
    ensures Distinct(peers) ==> Distinct(peers[1..]) && peers[0] !in peers[1..]
  {
    if Distinct(peers) {
      var t := peers[1..];
      forall i, j | 0 <= i < j < |t|
        ensures t[i] != t[j]
      {
        assert t[i] == peers[i + 1] && t[j] == peers[j + 1];
      }
    }
  }

  lemma DistinctConsIf(peers: seq<Peer>, rest: seq<Peer>)
    requires |peers| > 0
    requires forall q :: q in rest ==> q in peers[1..]
    requires Distinct(peers) ==> Distinct(rest) && peers[0] !in peers[1..]
    ensures Distinct(peers) ==> Distinct([peers[0]] + rest)
  {
    if Distinct(peers) {
      DistinctCons(peers[0], rest);
    }
  }

  /** Replaces whatever is stored for `p.addr` by `p` alone, placed last;
      entries for other addresses keep their values and relative order. */
  function UpdatePeer(ext: Option<Addr>, peers: seq<Peer>, p: Peer): (r: seq<Peer>)
    ensures RemovePeer(r, p.addr) == RemovePeer(peers, p.addr)
    ensures !IsSelf(ext, p.addr) ==>
      |r| > 0 && r[|r| - 1] == p && forall i :: 0 <= i < |r| - 1 ==> r[i].addr != p.addr
    ensures IsSelf(ext, p.addr) ==> forall q :: q in r ==> q.addr != p.addr
    ensures Wellformed(ext, peers) ==> Wellformed(ext, r)
  {
    var kept := RemovePeer(peers, p.addr);
    var r := AddPeer(ext, kept, p);
    RemoveIdempotent(peers, p.addr);
    if IsSelf(ext, p.addr) then r
    else
      assert p !in kept;
      assert r == kept + [p];
      RemoveDistributes(kept, [p], p.addr);
      assert RemovePeer([p], p.addr) == [];
      assert forall i :: 0 <= i < |r| - 1 ==> r[i] == kept[i] && r[i] in kept;
      r
  }

  /** Removal of an address commutes with concatenation, so it keeps order. */
  lemma {:induction false} RemoveDistributes(x: seq<Peer>, y: seq<Peer>, a: Addr)
    ensures RemovePeer(x + y, a) == RemovePeer(x, a) + RemovePeer(y, a)
  {
    if |x| == 0 {
      assert x + y == y;
    } else {
      assert (x + y)[0] == x[0];
      assert (x + y)[1..] == x[1..] + y;
      RemoveDistributes(x[1..], y, a);
    }
  }

  /** Removing an address nobody has changes nothing. */
  lemma {:induction false} RemoveAbsent(peers: seq<Peer>, a: Addr)
    requires forall q :: q in peers ==> q.addr != a
    ensures RemovePeer(peers, a) == peers
  {
    if |peers| > 0 {
      assert forall q :: q in peers[1..] ==> q in peers;
      RemoveAbsent(peers[1..], a);
      assert [peers[0]] + peers[1..] == peers;
    }
  }

  /** Removing an address twice is removing it once. */
  lemma {:induction false} RemoveIdempotent(peers: seq<Peer>, a: Addr)
    ensures RemovePeer(RemovePeer(peers, a), a) == RemovePeer(peers, a)
  {
    RemoveAbsent(RemovePeer(peers, a), a);
  }

  /** Removal keeps each surviving record exactly as often as it occurred. */
  lemma {:induction false} RemoveCounts(peers: seq<Peer>, a: Addr, q: Peer)
    ensures multiset(RemovePeer(peers, a))[q] == if q.addr == a then 0 else multiset(peers)[q]
  {
    if |peers| > 0 {
      RemoveCounts(peers[1..], a, q);
      assert peers == [peers[0]] + peers[1..];
      assert multiset(peers) == multiset([peers[0]]) + multiset(peers[1..]);
    }
  }

  /** Removing two addresses in either order gives the same list. */
  lemma {:induction false} RemoveCommutes(peers: seq<Peer>, a: Addr, b: Addr)
    ensures RemovePeer(RemovePeer(peers, a), b) == RemovePeer(RemovePeer(peers, b), a)
  {
    if |peers| > 0 {
      RemoveCommutes(peers[1..], a, b);
      var h := peers[0];
      var ha := if h.addr == a then [] else [h];
      var hb := if h.addr == b then [] else [h];
      RemoveDistributes(ha, RemovePeer(peers[1..], a), b);
      RemoveDistributes(hb, RemovePeer(peers[1..], b), a);
      RemoveAbsentSmall(h, a);
      RemoveAbsentSmall(h, b);
    }
  }

  lemma RemoveAbsentSmall(h: Peer, a: Addr)
    ensures RemovePeer([h], a) == if h.addr == a then [] else [h]
    ensures RemovePeer([], a) == []
  {
    assert [h][1..] == [];
  }

  /** Applies `AddPeer` to every peer of `list`, in order: the merge of a
      peer list received by gossip. */
  function AddAll(ext: Option<Addr>, peers: seq<Peer>, list: seq<Peer>): (r: seq<Peer>)
    ensures peers <= r
    ensures forall q :: q in r <==> q in peers || (q in list && !IsSelf(ext, q.addr))
    ensures Wellformed(ext, peers) ==> Wellformed(ext, r)
    decreases |list|
  {
    if |list| == 0 then peers
    else
      var next := AddPeer(ext, peers, list[0]);
      var r := AddAll(ext, next, list[1..]);
      assert forall q :: q in list <==> q == list[0] || q in list[1..];
      PrefixTrans(peers, next, r);
      r
  }

  /** Merging two lists one after the other is merging their concatenation,
      so `AddAll` is `AddPeer` applied to the listed records in list order. */
  lemma {:induction false} AddAllAppend(ext: Option<Addr>, peers: seq<Peer>, l1: seq<Peer>, l2: seq<Peer>)
    ensures AddAll(ext, peers, l1 + l2) == AddAll(ext, AddAll(ext, peers, l1), l2)
    ensures |l2| > 0 ==> AddAll(ext, peers, [l2[0]]) == AddPeer(ext, peers, l2[0])
    decreases |l1|
  {
    if |l1| == 0 {
      assert l1 + l2 == l2;
    } else {
      assert (l1 + l2)[0] == l1[0];
      assert (l1 + l2)[1..] == l1[1..] + l2;
      AddAllAppend(ext, AddPeer(ext, peers, l1[0]), l1[1..], l2);
    }
    if |l2| > 0 {
      assert [l2[0]][1..] == [];
    }
  }
}
