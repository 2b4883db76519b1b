/**
 The election inside one synchronisation round: a running maximum over the
 heights of the peers that answered the handshake, starting from height 0
 and compared with `>=`, so a later peer with an equal height takes over.
 */
module Election {
  import opened Wire
  import opened Registry

  /** The provisional winner of a round and the height it reported. */
  datatype Ballot = Ballot(leader: Option<Peer>, maxLength: nat)

  /** The ballot a round starts with. */
  const Opening: Ballot := Ballot(None, 0)

  /** Looks at one successfully handshaken peer. */
  function Consider(b: Ballot, seen: Peer): (r: Ballot)
    ensures r.maxLength >= b.maxLength
    ensures seen.currentBlock >= b.maxLength ==> r.maxLength == seen.currentBlock
    ensures r == b || r == Ballot(Some(seen), seen.currentBlock)
    ensures r.leader == Some(seen) <==> seen.currentBlock >= b.maxLength || b.leader == Some(seen)
  {
    if seen.currentBlock >= b.maxLength then Ballot(Some(seen), seen.currentBlock) else b
  }

  /** The ballot after looking at `succ` in order: the running maximum
      never decreases, and the ballot either stays or names one of the
      peers looked at, with the height that peer reported. */
  function Tally(b: Ballot, succ: seq<Peer>): (r: Ballot)
    ensures r.maxLength >= b.maxLength
    ensures r == b || (r.leader.Some? && r.leader.value in succ && r.maxLength == r.leader.value.currentBlock)
    decreases |succ|
  {
    if |succ| == 0 then b
    else
      var r := Tally(Consider(b, succ[0]), succ[1..]);
      assert forall q :: q in succ[1..] ==> q in succ;
      r
  }

  /** `succ[k]` has the greatest height and no later entry reaches it: the
      highest peer, ties going to the one seen last. */
  predicate IsLastMax(succ: seq<Peer>, k: int) {
    && 0 <= k < |succ|
    && (forall j :: 0 <= j < |succ| ==> succ[j].currentBlock <= succ[k].currentBlock)
    && (forall j :: k < j < |succ| ==> succ[j].currentBlock < succ[k].currentBlock)
  }

  /** A tally keeps its ballot when every height is below the running
      maximum; otherwise it ends on the last highest peer. */
  lemma {:induction false} TallyLastMax(b: Ballot, succ: seq<Peer>)
    ensures (forall j :: 0 <= j < |succ| ==> succ[j].currentBlock < b.maxLength) ==> Tally(b, succ) == b
    ensures (exists j :: 0 <= j < |succ| && succ[j].currentBlock >= b.maxLength) ==>
      exists k :: IsLastMax(succ, k) && succ[k].currentBlock >= b.maxLength &&
        Tally(b, succ) == Ballot(Some(succ[k]), succ[k].currentBlock)
    decreases |succ|
  {
    if |succ| > 0 {
      var b' := Consider(b, succ[0]);
      var rest := succ[1..];
      TallyLastMax(b', rest);
      assert forall j :: 0 <= j < |rest| ==> rest[j] == succ[j + 1];
      if forall j :: 0 <= j < |rest| ==> rest[j].currentBlock < b'.maxLength {
        if succ[0].currentBlock >= b.maxLength {
          assert IsLastMax(succ, 0);
        }
      } else {
        var k' :| IsLastMax(rest, k') && rest[k'].currentBlock >= b'.maxLength &&
          Tally(b', rest) == Ballot(Some(rest[k']), rest[k'].currentBlock);
        assert IsLastMax(succ, k' + 1);
      }
    }
  }

  /** A round's election from the opening ballot: nobody when nobody answered,
      otherwise the last highest peer, with the height it reported. */
  lemma OpeningElectsLastMax(succ: seq<Peer>)
    ensures |succ| == 0 ==> Tally(Opening, succ) == Opening
    ensures |succ| > 0 ==>
      exists k :: IsLastMax(succ, k) && Tally(Opening, succ) == Ballot(Some(succ[k]), succ[k].currentBlock)
  {
    TallyLastMax(Opening, succ);
    if |succ| > 0 {
      assert succ[0].currentBlock >= Opening.maxLength;
    }
  }

  /** Some peer before position `m` reported more than `succ[m]`. */
  predicate Outranked(succ: seq<Peer>, m: int)
    requires 0 <= m < |succ|
  {
    exists j :: 0 <= j < m && succ[j].currentBlock > succ[m].currentBlock
  }

  /** `succ[m]` is at least every earlier height: a (weak) record. */
  predicate IsRecord(succ: seq<Peer>, m: int)
    requires 0 <= m < |succ|
  {
    forall j :: 0 <= j < m ==> succ[j].currentBlock <= succ[m].currentBlock
  }

  /** Two formulations of the winner agree: the last highest peer is exactly
      the last record, the record after which every peer is outranked. */
  lemma LastMaxIffLastRecord(succ: seq<Peer>, k: int)
    requires 0 <= k < |succ|
    ensures IsLastMax(succ, k) <==>
      IsRecord(succ, k) && forall m :: k < m < |succ| ==> Outranked(succ, m)
  {
    if IsLastMax(succ, k) {
      forall m | k < m < |succ|
        ensures Outranked(succ, m)
      {
        assert 0 <= k < m && succ[k].currentBlock > succ[m].currentBlock;
      }
    }
    if IsRecord(succ, k) && forall m :: k < m < |succ| ==> Outranked(succ, m) {
      forall m | k < m < |succ|
        ensures succ[m].currentBlock < succ[k].currentBlock
      {
        LaterBelowRecord(succ, k, m);
      }
    }
  }

  /** After the last record every peer is below it, by induction on the
      position of the earlier peer that outranks it. */
  lemma {:induction false} LaterBelowRecord(succ: seq<Peer>, k: int, m: int)
    requires 0 <= k < m < |succ|
    requires IsRecord(succ, k)
    requires forall i :: k < i < |succ| ==> Outranked(succ, i)
    ensures succ[m].currentBlock < succ[k].currentBlock
    decreases m
  {
    assert Outranked(succ, m);
    var j :| 0 <= j < m && succ[j].currentBlock > succ[m].currentBlock;
    if j > k {
      LaterBelowRecord(succ, k, j);
    } else if j < k {
      assert succ[j].currentBlock <= succ[k].currentBlock;
    }
  }

  /** Three peers at heights 10, 20 and 20: the third one wins. */
  lemma TieGoesToLastSeen(p1: Peer, p2: Peer, p3: Peer)
    requires p1.currentBlock == 10 && p2.currentBlock == 20 && p3.currentBlock == 20
    ensures Tally(Opening, [p1, p2, p3]).leader == Some(p3)
  {
    var b1 := Consider(Opening, p1);
    var b2 := Consider(b1, p2);
    var b3 := Consider(b2, p3);
    assert b3.leader == Some(p3);
    assert [p1, p2, p3][1..] == [p2, p3];
    assert [p2, p3][1..] == [p3];
    assert [p3][1..] == [];
    calc {
      Tally(Opening, [p1, p2, p3]);
      Tally(b1, [p2, p3]);
      Tally(b2, [p3]);
      Tally(b3, []);
      b3;
    }
  }
}
