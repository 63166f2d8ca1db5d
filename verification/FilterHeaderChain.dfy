/** Committing filter headers: which headers a batch commits, and why the commitments of the
    whole tree form one hash chain along every branch. */
module FilterHeaderChain {
  import opened Hashes
  import opened Filters
  import opened Graph
  import opened GraphInvariant
  import opened GraphIndex
  import opened GraphFilters
  import opened FilterHeaders
  import opened ChainState

  // ---------- What a batch commits ----------

  /** The headers that a request asks for. */
  ghost predicate InRange(t: Tree, r: FilterHeaderRequest, x: Hash) {
    x in t.headers && Descends(r.stopHash, x) && r.startHeight <= t.headers[x].height
  }

  /** The commitment that pushing `cs` backwards from `x` leaves on `y`. */
  ghost function Pushed(t: Tree, n: BlockNode, cs: seq<Commitment>, x: Hash, y: Hash): BlockNode
    requires x in t.headers && y in t.headers
  {
    var back := t.headers[x].height - t.headers[y].height;
    if Descends(x, y) && 0 <= back < |cs| then n.(commitment := Some(cs[|cs| - 1 - back])) else n
  }

  lemma {:induction false} PushBatchCommits(t: Tree, hs: map<Hash, BlockNode>, cs: seq<Commitment>, x: Hash, y: Hash)
    requires AllPlaced(t) && SameNodes(t.headers, hs) && y in t.headers && x in t.headers
    requires |cs| <= Depth(x) - Depth(t.origin.hash)
    ensures SameNodes(t.headers, PushBatch(hs, cs, x))
    ensures PushBatch(hs, cs, x)[y] == Pushed(t, hs[y], cs, x, y)
    decreases |cs|
  {
    assert Placed(t, x) && Placed(t, y);
    if 1 < |cs| {
      var last := |cs| - 1;
      var next := SetCommitment(hs, cs[last], x);
      RootByDepth(t, x);
      assert Placed(t, x.header.prev);
      PushBatchCommits(t, next, cs[..last], x.header.prev, y);
      PushedStep(t, hs, cs, x, y);
    } else if |cs| == 1 {
      assert cs[..0] == [];
      assert PushBatch(hs, cs, x) == SetCommitment(hs, cs[0], x);
      if Descends(x, y) {
        DescendsDepth(x, y);
      }
    }
  }

  lemma PushedStep(t: Tree, hs: map<Hash, BlockNode>, cs: seq<Commitment>, x: Hash, y: Hash)
    requires AllPlaced(t) && SameNodes(t.headers, hs) && y in t.headers && x in t.headers && 1 < |cs|
    requires x.Of? && x.header.prev in t.headers
    ensures var last := |cs| - 1;
            Pushed(t, SetCommitment(hs, cs[last], x)[y], cs[..last], x.header.prev, y) == Pushed(t, hs[y], cs, x, y)
  {
    var p := x.header.prev;
    assert Placed(t, x) && Placed(t, y) && Placed(t, p);
    if Descends(p, y) {
      DescendsDepth(p, y);
    }
  }

  /** A reply that is held to its request commits the i-th header above the start, for every
      header in range, and touches nothing else. */
  lemma BatchCommitsRange(t: Tree, r: FilterHeaderRequest, batch: Batch, y: Hash)
    requires Valid(t) && Judge(t, Some(r), batch) == Counts && y in t.headers
    requires t.origin.height < r.startHeight
    ensures r.stopHash in t.headers && |batch.inner| == t.headers[r.stopHash].height - r.startHeight + 1
    ensures var t' := t.(headers := PushBatch(t.headers, batch.inner, batch.stopHash));
            && SameShape(t, t')
            && (InRange(t, r, y) ==> 0 <= t.headers[y].height - r.startHeight < |batch.inner|)
            && t'.headers[y] == if InRange(t, r, y)
                                then t.headers[y].(commitment := Some(batch.inner[t.headers[y].height - r.startHeight]))
                                else t.headers[y]
  {
    assert Placed(t, r.stopHash) && Placed(t, y);
    if Descends(r.stopHash, y) {
      DescendsDepth(r.stopHash, y);
    }
    PushBatchCommits(t, t.headers, batch.inner, batch.stopHash, y);
  }

  // ---------- The invariant ----------

  /** A committed header stands on a committed parent, and hashes its filter onto the parent's
      filter header. */
  ghost predicate ChainsOn(t: Tree, x: Hash)
    requires x in t.headers
  {
    var c, prev := t.headers[x].commitment, t.headers[x].header.prev;
    c.Some? && prev in t.headers ==>
      t.headers[prev].commitment.Some? && c.value.header == Link(c.value.filterHash, t.headers[prev].commitment.value.header)
  }

  ghost predicate CommitmentsChain(t: Tree) {
    forall x | x in t.headers :: ChainsOn(t, x)
  }

  /** The request starts right above what is committed on the branch of its stop hash, and
      nothing that stands on its range is committed. */
  ghost predicate RequestFits(t: Tree, r: FilterHeaderRequest) {
    && r.stopHash in t.headers && t.origin.height < r.startHeight <= t.headers[r.stopHash].height
    && (forall x | InRange(t, r, x) && t.headers[x].height == r.startHeight && t.headers[x].header.prev in t.headers ::
          var below := t.headers[t.headers[x].header.prev].commitment;
          below.Some? && r.expectedPrev == Some(below.value.header))
    && (forall x | x in t.headers && !InRange(t, r, x) && InRange(t, r, t.headers[x].header.prev) ::
          t.headers[x].commitment.None?)
  }

  ghost predicate FilterChainInv(t: Tree, r: Option<FilterHeaderRequest>) {
    CommitmentsChain(t) && (r.Some? ==> RequestFits(t, r.value))
  }

  // ---------- Accepting headers keeps it ----------

  lemma InsertedLeaf(t: Tree, h: Header)
    requires Valid(t)
    ensures var t' := Accept(t, h).0;
            && t'.origin == t.origin && t.headers.Keys <= t'.headers.Keys <= t.headers.Keys + {h.BlockHash()}
            && (forall x | x in t.headers :: t'.headers[x] == t.headers[x])
            && (h.BlockHash() in t'.headers && h.BlockHash() !in t.headers ==>
                  t'.headers[h.BlockHash()].commitment.None? && !t'.headers[h.BlockHash()].checked
                  && t'.headers[h.BlockHash()].header == h)
  {
    if h.prev == t.tip.hash {
      TipHasNoStoredChild(t, h);
    } else if Reorganizes(t, h) {
      ReorganizationShape(t, h);
    } else {
      ForkInserts(t, h);
    }
  }

  lemma ForkInserts(t: Tree, h: Header)
    requires Valid(t) && h.prev != t.tip.hash && !Reorganizes(t, h)
    ensures var t' := Accept(t, h).0;
            && t'.origin == t.origin && t.headers.Keys <= t'.headers.Keys <= t.headers.Keys + {h.BlockHash()}
            && (forall x | x in t.headers :: t'.headers[x] == t.headers[x])
            && (h.BlockHash() in t'.headers && h.BlockHash() !in t.headers ==>
                  t'.headers[h.BlockHash()].commitment.None? && !t'.headers[h.BlockHash()].checked
                  && t'.headers[h.BlockHash()].header == h)
  {
    var i := Position(t.forks, h.prev);
    if h.BlockHash() !in t.headers && i < |t.forks| {
      assert Accept(t, h) == ExtendCandidate(t, h, i);
    } else if h.BlockHash() !in t.headers && h.prev in t.headers {
      assert Accept(t, h) == StartFork(t, h);
    }
  }

  lemma AcceptKeepsRange(t: Tree, h: Header, r: FilterHeaderRequest, x: Hash)
    requires Valid(t) && r.stopHash in t.headers && t.origin.height < r.startHeight
    ensures InRange(Accept(t, h).0, r, x) <==> InRange(t, r, x)
  {
    InsertedLeaf(t, h);
    AcceptValid(t, h);
    var t' := Accept(t, h).0;
    if InRange(t', r, x) {
      assert Placed(t', x);
      AncestorsAreStored(t, r.stopHash, x);
    }
  }

  lemma AcceptKeepsFilterChain(t: Tree, h: Header, r: Option<FilterHeaderRequest>)
    requires Valid(t) && FilterChainInv(t, r)
    ensures FilterChainInv(Accept(t, h).0, r)
  {
    var t' := Accept(t, h).0;
    InsertedLeaf(t, h);
    AcceptValid(t, h);
    forall x | x in t'.headers ensures ChainsOn(t', x) {
      if x in t.headers {
        assert ChainsOn(t, x);
        ParentStaysUnstored(t, t', x);
      }
    }
    if r.Some? {
      AcceptKeepsRequest(t, h, r.value);
    }
  }

  /** The parent of a stored header is stored, or is the origin, which never is. */
  lemma ParentStaysUnstored(t: Tree, t': Tree, x: Hash)
    requires Valid(t) && Valid(t') && t'.origin == t.origin && x in t.headers
    ensures t.headers[x].header.prev in t'.headers ==> t.headers[x].header.prev in t.headers
  {
    assert Placed(t, x);
    OriginNotStored(t');
  }

  lemma AcceptKeepsRequest(t: Tree, h: Header, r: FilterHeaderRequest)
    requires Valid(t) && RequestFits(t, r)
    ensures RequestFits(Accept(t, h).0, r)
  {
    var t' := Accept(t, h).0;
    InsertedLeaf(t, h);
    AcceptValid(t, h);
    forall x ensures InRange(t', r, x) <==> InRange(t, r, x) {
      AcceptKeepsRange(t, h, r, x);
    }
    forall x | InRange(t', r, x) && t'.headers[x].height == r.startHeight && t'.headers[x].header.prev in t'.headers
      ensures var below := t'.headers[t'.headers[x].header.prev].commitment;
              below.Some? && r.expectedPrev == Some(below.value.header)
    {
      assert InRange(t, r, x);
      ParentStaysUnstored(t, t', x);
    }
    forall x | x in t'.headers && !InRange(t', r, x) && InRange(t', r, t'.headers[x].header.prev)
      ensures t'.headers[x].commitment.None?
    {
      if x in t.headers {
        assert !InRange(t, r, x) && InRange(t, r, t.headers[x].header.prev);
      }
    }
  }

  // ---------- Committing a batch keeps it ----------

  ghost function Commit(t: Tree, batch: Batch): Tree {
    t.(headers := PushBatch(t.headers, batch.inner, batch.stopHash))
  }

  lemma CommitChainsOn(t: Tree, r: FilterHeaderRequest, message: CFHeaders, x: Hash)
    requires Valid(t) && FilterChainInv(t, Some(r)) && Judge(t, Some(r), BatchOf(message)) == Counts
    requires x in t.headers
    ensures SameShape(t, Commit(t, BatchOf(message))) && ChainsOn(Commit(t, BatchOf(message)), x)
  {
    var batch := BatchOf(message);
    BatchCommitsRange(t, r, batch, x);
    assert Placed(t, x);
    var prev := t.headers[x].header.prev;
    if prev in t.headers {
      assert ChainsOn(t, x) && Placed(t, prev);
      BatchCommitsRange(t, r, batch, prev);
      ChainedLength(message.previousFilterHeader, message.filterHashes);
      if InRange(t, r, x) {
        ChainedLinks(message.previousFilterHeader, message.filterHashes, t.headers[x].height - r.startHeight);
        DescendsTransitive(r.stopHash, x, prev);
      }
    }
  }

  lemma CommitKeepsRequest(t: Tree, r: FilterHeaderRequest, batch: Batch)
    requires Valid(t) && RequestFits(t, r) && Judge(t, Some(r), batch) == Counts
    ensures RequestFits(Commit(t, batch), r)
  {
    var t' := Commit(t, batch);
    BatchCommitsRange(t, r, batch, r.stopHash);
    forall x ensures InRange(t', r, x) <==> InRange(t, r, x) {}
    forall x | InRange(t', r, x) && t'.headers[x].height == r.startHeight && t'.headers[x].header.prev in t'.headers
      ensures var below := t'.headers[t'.headers[x].header.prev].commitment;
              below.Some? && r.expectedPrev == Some(below.value.header)
    {
      assert InRange(t, r, x);
      var prev := t.headers[x].header.prev;
      assert Placed(t, x) && Placed(t, prev);
      BatchCommitsRange(t, r, batch, prev);
    }
    forall x | x in t'.headers && !InRange(t', r, x) && InRange(t', r, t'.headers[x].header.prev)
      ensures t'.headers[x].commitment.None?
    {
      BatchCommitsRange(t, r, batch, x);
      assert !InRange(t, r, x) && InRange(t, r, t.headers[x].header.prev);
    }
  }

  /** A quorum's batch extends the chain of commitments on its branch. */
  lemma CommitKeepsFilterChain(t: Tree, r: FilterHeaderRequest, message: CFHeaders)
    requires Valid(t) && FilterChainInv(t, Some(r)) && Judge(t, Some(r), BatchOf(message)) == Counts
    ensures FilterChainInv(Commit(t, BatchOf(message)), Some(r))
  {
    BatchCommitsRange(t, r, BatchOf(message), r.stopHash);
    forall x | x in t.headers ensures ChainsOn(Commit(t, BatchOf(message)), x) {
      CommitChainsOn(t, r, message, x);
    }
    CommitKeepsRequest(t, r, BatchOf(message));
  }

  // ---------- Requests ----------

  /** Below an uncommitted header, the run of uncommitted headers ends at one whose parent is
      committed, or not stored. */
  lemma {:induction false} RunEnds(t: Tree, x: Hash, lowest: nat) returns (bottom: Hash)
    requires AllPlaced(t) && x in t.headers && t.headers[x].commitment.None?
    ensures bottom in t.headers && Descends(x, bottom)
    ensures var (start, prev) := UncommittedRun(t.headers, x, lowest);
            && start == t.headers[bottom].height
            && (forall z | z in t.headers && Descends(x, z) && start <= t.headers[z].height ::
                  t.headers[z].commitment.None?)
            && var p := t.headers[bottom].header.prev;
               prev == (if p in t.headers && t.headers[p].commitment.Some?
                        then Some(t.headers[p].commitment.value.header) else None)
               && (prev == None ==> p !in t.headers)
    decreases x
  {
    assert Placed(t, x);
    var p := x.header.prev;
    if p in t.headers && t.headers[p].commitment.None? {
      bottom := RunEnds(t, p, t.headers[x].height);
      assert Placed(t, p) && Placed(t, bottom);
      forall z | z in t.headers && Descends(x, z) && t.headers[bottom].height <= t.headers[z].height
        ensures t.headers[z].commitment.None?
      {
        assert Placed(t, z);
        if z != x {
          DescendsDepth(p, z);
        }
      }
    } else {
      bottom := x;
      if p in t.headers {
        assert Placed(t, p);
      }
      assert UncommittedRun(t.headers, x, lowest) == UncommittedRun(t.headers, p, t.headers[x].height);
      forall z | z in t.headers && Descends(x, z) && t.headers[x].height <= t.headers[z].height ensures z == x {
        assert Placed(t, z);
        DescendsDepth(x, z);
      }
    }
  }

  /** Where commitments chain, an uncommitted active header leaves the tip uncommitted. */
  lemma UnsyncedTipIsUncommitted(t: Tree)
    requires Valid(t) && CommitmentsChain(t) && !AllCommitted(t)
    ensures t.tip.hash in t.headers && t.headers[t.tip.hash].commitment.None?
  {
    var x :| Active(t, x) && t.headers[x].commitment.None?;
    if t.headers[t.tip.hash].commitment.Some? {
      CommittedDownward(t, t.tip.hash, x);
    }
  }

  lemma {:induction false} CommittedDownward(t: Tree, x: Hash, y: Hash)
    requires AllPlaced(t) && CommitmentsChain(t) && y in t.headers && Descends(x, y) && x in t.headers
    requires t.headers[x].commitment.Some?
    ensures t.headers[y].commitment.Some?
    decreases x
  {
    assert Placed(t, x) && Placed(t, y) && ChainsOn(t, x);
    if x != y {
      DescendsDepth(x.header.prev, y);
      CommittedDownward(t, x.header.prev, y);
    }
  }

  lemma StopIsActive(t: Tree, start: nat, span: Pos)
    requires Valid(t) && Exact(t) && t.headers != map[]
    requires t.origin.height < start <= t.tip.height
    ensures var stop := StopFor(t, start + span);
            && Active(t, stop)
            && t.headers[stop].height == if start + span <= t.tip.height then start + span else t.tip.height
  {
    BlockHashAtIsActive(t, start + span);
    ActiveIsAtHeight(t, t.tip.hash);
  }
}
