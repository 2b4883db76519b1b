/**
 One synchronisation round of a node: every peer of a snapshot of the
 registry is contacted in order; a peer that answers the handshake has its
 record replaced with the height it reported, takes part in the election
 and is asked for its own peer list (gossip); a peer whose request fails
 is removed. A reply that does not decode, or a node that must name itself
 but has no external address, aborts the round, keeping the edits made so
 far and leaving the elected peer as it was. The elected peer is written
 only when the round completes and at least one peer answered.
 */
module Sync {
  import opened Wire
  import opened Registry
  import opened Election

  /** The state a round reads and edits. */
  datatype Node = Node(peers: seq<Peer>, elected: Option<Peer>, externalAddr: Option<Addr>, isClient: bool)

  predicate NodeWellformed(n: Node) {
    Wellformed(n.externalAddr, n.peers)
  }

  /** A client contacts peers anonymously; a node must send its own address. */
  predicate CanIntroduce(n: Node) {
    n.isClient || n.externalAddr.Some?
  }

  /** What contacting one snapshot peer gave: the handshake reply (the
      peer's current block height) and the reply to the follow-up request
      for its peer list, which is only made when the handshake succeeded. */
  datatype Contact = Contact(handshake: Reply<nat>, gossip: Reply<seq<Peer>>)

  /** A contact whose reply did not decode. */
  predicate Malformed(c: Contact) {
    c.handshake == Failed(Json) || (c.handshake.Ok? && c.gossip == Failed(Json))
  }

  predicate NoneMalformed(contacts: seq<Contact>) {
    forall i :: 0 <= i < |contacts| ==> !Malformed(contacts[i])
  }

  datatype Failure = NotANode | MalformedJson
  datatype Outcome = Completed | Aborted(why: Failure)
  datatype RoundEnd = RoundEnd(node: Node, outcome: Outcome)

  /** The registry and the provisional election part-way through a round. */
  datatype Progress = Progress(peers: seq<Peer>, ballot: Ballot)

  /** The round goes on, or stops with the registry as it then stood. */
  datatype Step = Continue(progress: Progress) | Stop(peers: seq<Peer>, why: Failure)

  function PeersOf(st: Step): seq<Peer> {
    match st
    case Continue(s) => s.peers
    case Stop(ps, _) => ps
  }

  /** Merges the peer list `source` sent back. `None` means the list did not
      decode, which aborts the round; any other failure removes `source`. */
  function Gossip(ext: Option<Addr>, peers: seq<Peer>, source: Peer, reply: Reply<seq<Peer>>): (r: Option<seq<Peer>>)
    ensures r.None? <==> reply == Failed(Json)
    ensures reply.Ok? ==>
      && r == Some(AddAll(ext, peers, reply.value)) && peers <= r.value
      && forall q :: q in r.value <==> q in peers || (q in reply.value && !IsSelf(ext, q.addr))
    ensures reply.Failed? && reply.fault != Json ==> r == Some(RemovePeer(peers, source.addr))
    ensures r.Some? && Wellformed(ext, peers) ==> Wellformed(ext, r.value)
  {
    match reply
    case Ok(list) => Some(AddAll(ext, peers, list))
    case Failed(fault) => if fault == Json then None else Some(RemovePeer(peers, source.addr))
  }

  /** Contacts one snapshot peer. */
  function Visit(n: Node, s: Progress, peer: Peer, c: Contact): (r: Step)
    ensures r.Continue? <==> CanIntroduce(n) && !Malformed(c)
    ensures !CanIntroduce(n) ==> r == Stop(s.peers, NotANode)
    ensures CanIntroduce(n) && c.handshake == Failed(Json) ==> r == Stop(s.peers, MalformedJson)
    ensures CanIntroduce(n) && c.handshake.Failed? && c.handshake.fault != Json ==>
      r == Continue(Progress(RemovePeer(s.peers, peer.addr), s.ballot))
    ensures CanIntroduce(n) && c.handshake.Ok? && c.gossip.Ok? ==>
      var seen := peer.(currentBlock := c.handshake.value);
      && r.Continue?
      && forall q :: q in r.progress.peers <==>
        || (q in s.peers && q.addr != peer.addr)
        || (q == seen && !IsSelf(n.externalAddr, peer.addr))
        || (q in c.gossip.value && !IsSelf(n.externalAddr, q.addr))
    ensures CanIntroduce(n) && c.handshake.Ok? ==>
      var seen := peer.(currentBlock := c.handshake.value);
      && (c.gossip == Failed(Json) ==> r == Stop(UpdatePeer(n.externalAddr, s.peers, seen), MalformedJson))
      && (c.gossip != Failed(Json) ==> r.Continue? && r.progress.ballot == Consider(s.ballot, seen))
      && (c.gossip.Failed? && c.gossip.fault != Json ==> r.Continue? && r.progress.peers == RemovePeer(s.peers, peer.addr))
      && (c.gossip.Ok? ==> r.Continue? && r.progress.peers == AddAll(n.externalAddr, UpdatePeer(n.externalAddr, s.peers, seen), c.gossip.value))
      && (c.gossip.Ok? && !IsSelf(n.externalAddr, peer.addr) ==> r.Continue? && RemovePeer(s.peers, peer.addr) + [seen] <= r.progress.peers)
      && (c.gossip.Ok? ==> r.Continue? && RemovePeer(s.peers, peer.addr) <= r.progress.peers)
    ensures Wellformed(n.externalAddr, s.peers) ==> Wellformed(n.externalAddr, PeersOf(r))
  {
    if !CanIntroduce(n) then Stop(s.peers, NotANode)
    else
      match c.handshake
      case Failed(fault) =>
        if fault == Json then Stop(s.peers, MalformedJson)
        else Continue(Progress(RemovePeer(s.peers, peer.addr), s.ballot))
      case Ok(height) =>
        var seen := peer.(currentBlock := height);
        var updated := UpdatePeer(n.externalAddr, s.peers, seen);
        assert !IsSelf(n.externalAddr, peer.addr) ==> seen in updated by {
          if !IsSelf(n.externalAddr, peer.addr) {
            assert updated[|updated| - 1] == seen;
          }
        }
        RemoveIdempotent(s.peers, peer.addr);
        forall q
          ensures q in updated <==> (q in s.peers && q.addr != peer.addr) || (q == seen && !IsSelf(n.externalAddr, peer.addr))
        {
          if q in updated && q.addr != peer.addr {
            assert q in RemovePeer(updated, peer.addr);
          }
        }
        match Gossip(n.externalAddr, updated, seen, c.gossip)
        case None => Stop(updated, MalformedJson)
        case Some(merged) =>
          var r := Continue(Progress(merged, Consider(s.ballot, seen)));
          if c.gossip.Ok? then PrefixTrans(RemovePeer(s.peers, peer.addr), updated, merged); r else r
  }

  /** Contacts the peers of `snapshot` in order, one contact each. */
  function Round(n: Node, s: Progress, snapshot: seq<Peer>, contacts: seq<Contact>): (r: Step)
    requires |contacts| == |snapshot|
    ensures Wellformed(n.externalAddr, s.peers) ==> Wellformed(n.externalAddr, PeersOf(r))
    decreases |snapshot|
  {
    if |snapshot| == 0 then Continue(s)
    else
      match Visit(n, s, snapshot[0], contacts[0])
      case Continue(next) => Round(n, next, snapshot[1..], contacts[1..])
      case Stop(ps, why) => Stop(ps, why)
  }

  /** One synchronisation round over the current registry, `contacts[i]`
      being what contacting the `i`-th peer gave. */
  function SyncWithPeers(n: Node, contacts: seq<Contact>): (r: RoundEnd)
    requires |contacts| == |n.peers|
    ensures r.node.externalAddr == n.externalAddr && r.node.isClient == n.isClient
    ensures r.outcome.Aborted? ==> r.node.elected == n.elected
    ensures NodeWellformed(n) ==> NodeWellformed(r.node)
  {
    match Round(n, Progress(n.peers, Opening), n.peers, contacts)
    case Continue(s) =>
      var elected := if s.ballot.leader.Some? then s.ballot.leader else n.elected;
      RoundEnd(n.(peers := s.peers, elected := elected), Completed)
    case Stop(ps, why) =>
      RoundEnd(n.(peers := ps), Aborted(why))
  }

  /** The snapshot peers that answered the handshake, in order, each with
      the height it reported. */
  function Successes(snapshot: seq<Peer>, contacts: seq<Contact>): seq<Peer>
    requires |contacts| == |snapshot|
    decreases |snapshot|
  {
    if |snapshot| == 0 then []
    else
      var h := contacts[0].handshake;
      (if h.Ok? then [snapshot[0].(currentBlock := h.value)] else []) + Successes(snapshot[1..], contacts[1..])
  }

  lemma TallyCons(b: Ballot, head: seq<Peer>, rest: seq<Peer>)
    requires |head| <= 1
    ensures Tally(b, head + rest) == Tally(if |head| == 0 then b else Consider(b, head[0]), rest)
  {
    if |head| == 1 {
      assert (head + rest)[0] == head[0];
      assert (head + rest)[1..] == rest;
    } else {
      assert head + rest == rest;
    }
  }

  /** A completed fold has run the election over exactly the successes. */
  lemma {:induction false} RoundTallies(n: Node, s: Progress, snapshot: seq<Peer>, contacts: seq<Contact>)
    requires |contacts| == |snapshot|
    ensures Round(n, s, snapshot, contacts).Continue? ==>
      Round(n, s, snapshot, contacts).progress.ballot == Tally(s.ballot, Successes(snapshot, contacts))
    decreases |snapshot|
  {
    if |snapshot| > 0 {
      var st := Visit(n, s, snapshot[0], contacts[0]);
      if st.Continue? {
        RoundTallies(n, st.progress, snapshot[1..], contacts[1..]);
        var h := contacts[0].handshake;
        var head := if h.Ok? then [snapshot[0].(currentBlock := h.value)] else [];
        TallyCons(s.ballot, head, Successes(snapshot[1..], contacts[1..]));
      }
    }
  }

  /** The fold runs to the end exactly when it has something to do only if
      the node can introduce itself, and no reply is malformed. */
  lemma {:induction false} RoundCompletesIff(n: Node, s: Progress, snapshot: seq<Peer>, contacts: seq<Contact>)
    requires |contacts| == |snapshot|
    ensures Round(n, s, snapshot, contacts).Continue? <==>
      (|snapshot| == 0 || CanIntroduce(n)) && NoneMalformed(contacts)
    decreases |snapshot|
  {
    if |snapshot| > 0 {
      var st := Visit(n, s, snapshot[0], contacts[0]);
      if st.Continue? {
        RoundCompletesIff(n, st.progress, snapshot[1..], contacts[1..]);
        assert forall i :: 1 <= i < |contacts| ==> contacts[i] == contacts[1..][i - 1];
      }
    }
  }

  /** The election a completed round commits: unchanged when no peer
      answered, otherwise the last highest peer that answered, with the
      height it reported. Elections are per round: the previous winner is
      not compared with. */
  lemma SyncElection(n: Node, contacts: seq<Contact>)
    requires |contacts| == |n.peers|
    ensures var r := SyncWithPeers(n, contacts);
      var succ := Successes(n.peers, contacts);
      r.outcome == Completed ==>
        && (|succ| == 0 ==> r.node.elected == n.elected)
        && (|succ| > 0 ==> exists k :: IsLastMax(succ, k) && r.node.elected == Some(succ[k]))
  {
    RoundTallies(n, Progress(n.peers, Opening), n.peers, contacts);
    OpeningElectsLastMax(Successes(n.peers, contacts));
  }

  /** A round completes exactly when no reply is malformed and, if there is
      a peer to contact, the node can introduce itself; a node that cannot
      introduce itself fails before changing anything. */
  lemma SyncCompletesIff(n: Node, contacts: seq<Contact>)
    requires |contacts| == |n.peers|
    ensures SyncWithPeers(n, contacts).outcome == Completed <==>
      (|n.peers| == 0 || CanIntroduce(n)) && NoneMalformed(contacts)
    ensures !CanIntroduce(n) && |n.peers| > 0 ==> SyncWithPeers(n, contacts) == RoundEnd(n, Aborted(NotANode))
  {
    RoundCompletesIff(n, Progress(n.peers, Opening), n.peers, contacts);
  }

  /** Gossip can add a second record for a known address when it carries a
      different height: the registry does not keep addresses unique. */
  lemma GossipCanRepeatAddress()
    ensures Gossip(None, [Peer("a", 1)], Peer("b", 5), Ok([Peer("a", 2)])) == Some([Peer("a", 1), Peer("a", 2)])
  {
    var known, heard := Peer("a", 1), Peer("a", 2);
    assert heard != known;
    assert heard !in [known];
    assert AddPeer(None, [known], heard) == [known, heard];
    assert [heard][1..] == [];
    assert AddAll(None, [known], [heard]) == AddAll(None, [known, heard], []);
  }
}
