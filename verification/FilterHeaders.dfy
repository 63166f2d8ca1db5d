/** Batches of filter headers and the count of peers that agree on one. */
module FilterHeaders {
  import opened Hashes
  import opened Filters

  type Peer = nat
  type U8 = n: nat | n < 256

  /** A `cfheaders` message (BIP 157, "cfheaders"). */
  datatype CFHeaders = CFHeaders(stopHash: Hash, previousFilterHeader: FilterHeader, filterHashes: seq<FilterHash>)

  datatype Batch = Batch(inner: seq<Commitment>, prevFilterHeader: FilterHeader, stopHash: Hash)

  // ---------- Batches ----------

  ghost function Chained(prev: FilterHeader, hashes: seq<FilterHash>): seq<Commitment>
    decreases |hashes|
  {
    if hashes == [] then []
    else [Commitment(Link(hashes[0], prev), hashes[0])] + Chained(Link(hashes[0], prev), hashes[1..])
  }

  ghost function BatchOf(message: CFHeaders): Batch {
    Batch(Chained(message.previousFilterHeader, message.filterHashes), message.previousFilterHeader, message.stopHash)
  }

  /** Each filter header in the chain hashes its filter hash onto the one before. */
  lemma {:induction false} ChainedLinks(prev: FilterHeader, hashes: seq<FilterHash>, i: nat)
    requires i < |hashes|
    ensures |Chained(prev, hashes)| == |hashes|
    ensures var c := Chained(prev, hashes);
            && c[i].filterHash == hashes[i]
            && c[i].header == Link(hashes[i], if i == 0 then prev else c[i - 1].header)
    decreases |hashes|
  {
    if 0 < i {
      ChainedLinks(Link(hashes[0], prev), hashes[1..], i - 1);
    } else if 1 < |hashes| {
      ChainedLinks(Link(hashes[0], prev), hashes[1..], 0);
    }
  }

  /** Two messages make the same batch only if they are the same message. */
  lemma {:induction false} BatchesAreFaithful(a: CFHeaders, b: CFHeaders)
    requires BatchOf(a) == BatchOf(b)
    ensures a == b
  {
    ChainedLength(a.previousFilterHeader, a.filterHashes);
    ChainedLength(b.previousFilterHeader, b.filterHashes);
    forall i | 0 <= i < |a.filterHashes| ensures a.filterHashes[i] == b.filterHashes[i] {
      ChainedLinks(a.previousFilterHeader, a.filterHashes, i);
      ChainedLinks(b.previousFilterHeader, b.filterHashes, i);
    }
  }

  lemma {:induction false} ChainedLength(prev: FilterHeader, hashes: seq<FilterHash>)
    ensures |Chained(prev, hashes)| == |hashes|
    decreases |hashes|
  {
    if hashes != [] {
      ChainedLength(Link(hashes[0], prev), hashes[1..]);
    }
  }

  class CFHeaderBatch {
    var inner: seq<Commitment>
    const prevFilterHeader: FilterHeader
    const stopHash: Hash

    function View(): Batch
      reads this
    {
      Batch(inner, prevFilterHeader, stopHash)
    }

    constructor (message: CFHeaders)
      ensures View() == BatchOf(message)
    {
      prevFilterHeader, stopHash, inner := message.previousFilterHeader, message.stopHash, [];
      new;
      var headers, prev := [], message.previousFilterHeader;
      ghost var all := Chained(message.previousFilterHeader, message.filterHashes);
      for i := 0 to |message.filterHashes|
        invariant headers + Chained(prev, message.filterHashes[i..]) == all
      {
        var hash := message.filterHashes[i];
        var next := Link(hash, prev);
        assert message.filterHashes[i..][1..] == message.filterHashes[i + 1..];
        headers := headers + [Commitment(next, hash)];
        prev := next;
      }
      inner := headers;
    }

    method TakeInner() returns (commitments: seq<Commitment>)
      modifies this`inner
      ensures commitments == old(inner) && inner == []
    {
      commitments := inner;
      inner := [];
    }
  }

  // ---------- Agreement ----------

  datatype Agreement = Agreement(pending: Option<(Peer, Batch)>, current: U8, required: U8)

  datatype Outcome = AddedToQueue | Extended | Conflict

  /** The number of agreeing messages that complete a round. */
  ghost function Need(a: Agreement): nat {
    if a.required == 0 then 1 else a.required
  }

  ghost predicate BelowQuorum(a: Agreement) {
    a.current < Need(a)
  }

  ghost function Vote(a: Agreement, peer: Peer, batch: Batch): (Agreement, Outcome)
    requires BelowQuorum(a)
  {
    if a.pending.Some? && a.pending.value.0 == peer then (a.(pending := None), AddedToQueue)
    else if a.pending.Some? && a.pending.value.1 != batch then (a.(pending := None, current := 0), Conflict)
    else if a.required <= a.current + 1 then (a.(pending := None, current := 0), Extended)
    else
      var first := if a.pending.Some? then a.pending.value.0 else peer;
      (a.(pending := Some((first, batch)), current := a.current + 1), AddedToQueue)
  }

  /** The count never leaves its byte, and a conflict or an extension starts over. */
  lemma VoteStaysBelowQuorum(a: Agreement, peer: Peer, batch: Batch)
    requires BelowQuorum(a)
    ensures var (a', outcome) := Vote(a, peer, batch);
            && BelowQuorum(a') && a'.required == a.required
            && (outcome != AddedToQueue ==> a'.pending == None && a'.current == 0)
            && (outcome == Extended ==> Need(a) == a.current + 1)
  {
  }

  /** The messages counted since the last reset: distinct peers, one batch, the first peer and
      the batch pending. */
  ghost predicate Tallied(a: Agreement, votes: seq<(Peer, Batch)>) {
    && |votes| == a.current
    && AgreeingPeers(votes)
    && a.pending == if votes == [] then None else Some(votes[0])
  }

  ghost predicate AgreeingPeers(votes: seq<(Peer, Batch)>) {
    && (forall i, j | 0 <= i < j < |votes| :: votes[i].0 != votes[j].0)
    && (forall i, j | 0 <= i < j < |votes| :: votes[i].1 == votes[j].1)
  }

  ghost predicate Voted(votes: seq<(Peer, Batch)>, peer: Peer) {
    exists i :: 0 <= i < |votes| && votes[i].0 == peer
  }

  /** A completed round is backed by the required number of distinct, agreeing peers exactly
      when the last of them had not been counted before. */
  lemma ExtendedIsBackedIff(a: Agreement, votes: seq<(Peer, Batch)>, peer: Peer, batch: Batch)
    requires BelowQuorum(a) && Tallied(a, votes) && Vote(a, peer, batch).1 == Extended
    ensures |votes + [(peer, batch)]| == if a.required == 0 then 1 else a.required
    ensures AgreeingPeers(votes + [(peer, batch)]) <==> !Voted(votes, peer)
  {
    var all := votes + [(peer, batch)];
    assert forall i | 0 <= i < |votes| :: all[i] == votes[i];
    if Voted(votes, peer) {
      var i :| 0 <= i < |votes| && votes[i].0 == peer;
      assert all[i].0 == all[|votes|].0;
    }
  }

  /** The tally that a message leaves, if it stays one. */
  ghost function TallyAfter(a: Agreement, votes: seq<(Peer, Batch)>, peer: Peer, batch: Batch): seq<(Peer, Batch)>
    requires BelowQuorum(a)
  {
    if Vote(a, peer, batch).1 != AddedToQueue then []
    else if Vote(a, peer, batch).0.pending.None? then votes
    else votes + [(peer, batch)]
  }

  /** The tally survives a message unless a counted peer sends the pending batch again, or the
      first of them sends anything: its repeat drops the batch but leaves the count. */
  lemma TallySurvivesIff(a: Agreement, votes: seq<(Peer, Batch)>, peer: Peer, batch: Batch)
    requires BelowQuorum(a) && Tallied(a, votes)
    ensures Vote(a, peer, batch).1 != Extended ==>
              (Tallied(Vote(a, peer, batch).0, TallyAfter(a, votes, peer, batch))
               <==> !(votes != [] && Voted(votes, peer) && (peer == votes[0].0 || batch == votes[0].1)))
  {
    var all := votes + [(peer, batch)];
    assert forall i | 0 <= i < |votes| :: all[i] == votes[i];
    if votes != [] && Voted(votes, peer) && peer != votes[0].0 && batch == votes[0].1 {
      var i :| 0 <= i < |votes| && votes[i].0 == peer;
      assert all[i].0 == all[|votes|].0;
    }
  }

  ghost function VoteAll(a: Agreement, votes: seq<(Peer, Batch)>): (Agreement, seq<Outcome>)
    requires BelowQuorum(a)
    ensures |VoteAll(a, votes).1| == |votes|
    ensures BelowQuorum(VoteAll(a, votes).0) && VoteAll(a, votes).0.required == a.required
    decreases |votes|
  {
    if votes == [] then (a, [])
    else
      var (before, outcomes) := VoteAll(a, votes[..|votes| - 1]);
      var last := votes[|votes| - 1];
      (Vote(before, last.0, last.1).0, outcomes + [Vote(before, last.0, last.1).1])
  }

  /** If no peer sends two messages between resets, the round is completed only by `required`
      distinct peers that all sent the same batch. */
  lemma {:induction false} QuorumIsSound(a: Agreement, votes: seq<(Peer, Batch)>)
    requires BelowQuorum(a) && a.current == 0 && a.pending == None && votes != []
    requires forall i, j | 0 <= i < j < |votes| :: votes[i].0 != votes[j].0
    requires forall i | 0 <= i < |votes| - 1 :: VoteAll(a, votes).1[i] == AddedToQueue
    ensures var outcome := VoteAll(a, votes).1[|votes| - 1];
            && (outcome == Extended <==> |votes| == (if a.required == 0 then 1 else a.required) && AgreeingPeers(votes))
            && (outcome == AddedToQueue ==> Tallied(VoteAll(a, votes).0, votes))
    decreases |votes|
  {
    var n := |votes| - 1;
    var front, last := votes[..n], votes[n];
    assert votes == front + [last];
    var (before, outcomes) := VoteAll(a, front);
    assert VoteAll(a, votes).1 == outcomes + [Vote(before, last.0, last.1).1];
    if front != [] {
      assert forall i | 0 <= i < |front| :: outcomes[i] == VoteAll(a, votes).1[i];
      QuorumIsSound(a, front);
    }
    NewVoterTallies(before, front, last.0, last.1);
  }

  /** The message of a peer not counted before is tallied, or completes the round. */
  lemma NewVoterTallies(a: Agreement, votes: seq<(Peer, Batch)>, peer: Peer, batch: Batch)
    requires BelowQuorum(a) && Tallied(a, votes) && !Voted(votes, peer)
    ensures var ((a', outcome), all) := (Vote(a, peer, batch), votes + [(peer, batch)]);
            && (outcome == Extended <==> |all| == Need(a) && AgreeingPeers(all))
            && (outcome == AddedToQueue ==> Tallied(a', all))
  {
    var all := votes + [(peer, batch)];
    assert forall i | 0 <= i < |votes| :: all[i] == votes[i];
    if AgreeingPeers(all) && votes != [] {
      assert all[0].1 == all[|votes|].1;
    }
  }

  /** Nothing but the pending peer's own repeats are told apart: one peer alone meets a quorum
      of two with its third message, whatever batch that carries. */
  lemma OnePeerMeetsQuorumOfTwo(peer: Peer, first: Batch, other: Batch)
    ensures var (a1, o1) := Vote(Agreement(None, 0, 2), peer, first);
            var (a2, o2) := Vote(a1, peer, first);
            o1 == AddedToQueue && o2 == AddedToQueue && Vote(a2, peer, other).1 == Extended
  {
    var a1 := Vote(Agreement(None, 0, 2), peer, first).0;
    assert a1 == Agreement(Some((peer, first)), 1, 2);
  }
}
