/** Which requests for filter headers are safe to make: those of which every reply that passes
    the checks keeps the commitments chained. */
module FilterRequests {
  import opened Hashes
  import opened Filters
  import opened Graph
  import opened GraphIndex
  import opened GraphFilters
  import opened FilterHeaders
  import opened ChainState
  import opened FilterHeaderChain

  // ---------- A request fits exactly if no reply can break the chain ----------

  ghost predicate Spans(t: Tree, r: FilterHeaderRequest) {
    r.stopHash in t.headers && t.origin.height < r.startHeight <= t.headers[r.stopHash].height
  }

  /** Whatever reply passes the checks, committing it keeps the commitments chained. */
  ghost predicate Safe(t: Tree, r: FilterHeaderRequest) {
    forall message: CFHeaders | Judge(t, Some(r), BatchOf(message)) == Counts ::
      CommitmentsChain(Commit(t, BatchOf(message)))
  }

  /** A reply that passes the checks, with the same filter hash for every header in range. */
  ghost function SomeReply(t: Tree, r: FilterHeaderRequest, prev: FilterHeader, contents: nat): CFHeaders
    requires Spans(t, r)
  {
    CFHeaders(r.stopHash, prev, seq(t.headers[r.stopHash].height + 1 - r.startHeight, _ => FilterHash(contents)))
  }

  /** The filter header to answer with, if one is expected. */
  ghost function Expected(r: FilterHeaderRequest, otherwise: FilterHeader): FilterHeader {
    if r.expectedPrev.Some? then r.expectedPrev.value else otherwise
  }

  lemma SomeReplyCounts(t: Tree, r: FilterHeaderRequest, otherwise: FilterHeader, contents: nat, x: Hash)
    requires Valid(t) && Spans(t, r) && x in t.headers
    ensures var message := SomeReply(t, r, Expected(r, otherwise), contents);
            var (batch, t') := (BatchOf(message), Commit(t, BatchOf(message)));
            && Judge(t, Some(r), batch) == Counts && SameShape(t, t')
            && (InRange(t, r, x) ==> t'.headers[x].commitment.Some?
                                     && t'.headers[x].commitment.value.header.Link?
                                     && t'.headers[x].commitment.value.header.filterHash == FilterHash(contents))
            && (InRange(t, r, x) && t.headers[x].height == r.startHeight ==>
                  t'.headers[x].commitment.value.header.prev == Expected(r, otherwise))
            && (!InRange(t, r, x) ==> t'.headers[x] == t.headers[x])
  {
    var message := SomeReply(t, r, Expected(r, otherwise), contents);
    ChainedLength(message.previousFilterHeader, message.filterHashes);
    BatchCommitsRange(t, r, BatchOf(message), x);
    if InRange(t, r, x) {
      ChainedLinks(message.previousFilterHeader, message.filterHashes, t.headers[x].height - r.startHeight);
    }
  }

  /** The parent of the first header in range is not committed to what the request expects. */
  lemma WrongParentBreaks(t: Tree, r: FilterHeaderRequest, x: Hash)
    requires Valid(t) && Spans(t, r) && InRange(t, r, x) && t.headers[x].height == r.startHeight
    requires var p := t.headers[x].header.prev;
             p in t.headers && !(t.headers[p].commitment.Some? && r.expectedPrev == Some(t.headers[p].commitment.value.header))
    ensures !Safe(t, r)
  {
    var p := t.headers[x].header.prev;
    assert Placed(t, x) && Placed(t, p);
    var otherwise := if t.headers[p].commitment.Some? then Link(FilterHash(0), t.headers[p].commitment.value.header) else Seed(0);
    SomeReplyCounts(t, r, otherwise, 0, x);
    SomeReplyCounts(t, r, otherwise, 0, p);
    assert !ChainsOn(Commit(t, BatchOf(SomeReply(t, r, Expected(r, otherwise), 0))), x);
  }

  /** A committed header stands beside the range, on a header in range. */
  lemma CommittedBesideBreaks(t: Tree, r: FilterHeaderRequest, y: Hash)
    requires Valid(t) && CommitmentsChain(t) && Spans(t, r)
    requires y in t.headers && !InRange(t, r, y) && InRange(t, r, t.headers[y].header.prev)
    requires t.headers[y].commitment.Some?
    ensures !Safe(t, r)
  {
    var z := t.headers[y].header.prev;
    assert ChainsOn(t, y);
    var was := t.headers[z].commitment.value.header;
    var contents := if was.Link? then was.filterHash.contents + 1 else 0;
    SomeReplyCounts(t, r, Seed(0), contents, z);
    SomeReplyCounts(t, r, Seed(0), contents, y);
    assert !ChainsOn(Commit(t, BatchOf(SomeReply(t, r, Expected(r, Seed(0)), contents))), y);
  }

  /** A request fits what is committed if and only if no passing reply can break the chain. */
  lemma FitsIffSafe(t: Tree, r: FilterHeaderRequest)
    requires Valid(t) && CommitmentsChain(t) && Spans(t, r)
    ensures RequestFits(t, r) <==> Safe(t, r)
  {
    if RequestFits(t, r) {
      forall message: CFHeaders | Judge(t, Some(r), BatchOf(message)) == Counts
        ensures CommitmentsChain(Commit(t, BatchOf(message)))
      {
        CommitKeepsFilterChain(t, r, message);
      }
    } else if x :| InRange(t, r, x) && t.headers[x].height == r.startHeight && t.headers[x].header.prev in t.headers
                   && var below := t.headers[t.headers[x].header.prev].commitment;
                      !(below.Some? && r.expectedPrev == Some(below.value.header)) {
      WrongParentBreaks(t, r, x);
    } else {
      var y :| y in t.headers && !InRange(t, r, y) && InRange(t, r, t.headers[y].header.prev)
               && t.headers[y].commitment.Some?;
      CommittedBesideBreaks(t, r, y);
    }
  }

  // ---------- When the next request fits ----------

  /** The request that is made next. */
  ghost function NextRequest(t: Tree): FilterHeaderRequest {
    var (start, prev) := UncommittedRun(t.headers, t.tip.hash, t.tip.height);
    FilterHeaderRequest(start, StopFor(t, start + CF_HEADER_BATCH_SIZE), prev)
  }

  /** `x` is where the walk from the stop hash passes the start height. */
  ghost predicate Foot(t: Tree, r: FilterHeaderRequest, x: Hash) {
    x in t.headers && Descends(r.stopHash, x) && t.headers[x].height == r.startHeight
  }

  /** The range of the request stands beside the active chain, on a parent that commits to the
      expected filter header, and no committed header stands beside the range. */
  ghost predicate StandsBeside(t: Tree, r: FilterHeaderRequest, foot: Hash)
    requires foot in t.headers
  {
    var p := t.headers[foot].header.prev;
    && p in t.headers && t.headers[p].commitment.Some?
    && r.expectedPrev == Some(t.headers[p].commitment.value.header)
    && forall y | y in t.headers && InRange(t, r, t.headers[y].header.prev) && !InRange(t, r, y) ::
         t.headers[y].commitment.None?
  }

  /** The stop hash that the height index gave descends from the lowest uncommitted active
      header, or its range may as well be committed. */
  ghost predicate StopSuits(t: Tree) {
    exists foot :: Foot(t, NextRequest(t), foot) && (Active(t, foot) || StandsBeside(t, NextRequest(t), foot))
  }

  lemma NextRequestSpans(t: Tree) returns (bottom: Hash)
    requires Valid(t) && CommitmentsChain(t) && !AllCommitted(t)
    ensures Spans(t, NextRequest(t)) && Active(t, bottom) && t.headers[bottom].commitment.None?
    ensures var r, p := NextRequest(t), t.headers[bottom].header.prev;
            && r.startHeight == t.headers[bottom].height
            && (p in t.headers ==> t.headers[p].commitment.Some?
                                   && r.expectedPrev == Some(t.headers[p].commitment.value.header))
  {
    UnsyncedTipIsUncommitted(t);
    bottom := RunEnds(t, t.tip.hash, t.tip.height);
    assert Placed(t, bottom) && Placed(t, t.tip.hash);
    DescendsDepth(t.tip.hash, bottom);
  }

  lemma FootExists(t: Tree, r: FilterHeaderRequest) returns (foot: Hash)
    requires Valid(t) && Spans(t, r)
    ensures Foot(t, r, foot)
  {
    assert Placed(t, r.stopHash);
    foot := AncestorAt(r.stopHash, r.startHeight - t.origin.height + Depth(t.origin.hash));
    AncestorsAreStored(t, r.stopHash, foot);
    assert Placed(t, foot);
  }

  /** Nothing above an uncommitted header is committed, so a request from there fits. */
  lemma RequestFromBottom(t: Tree, r: FilterHeaderRequest, bottom: Hash)
    requires Valid(t) && CommitmentsChain(t) && Spans(t, r) && Foot(t, r, bottom)
    requires t.headers[bottom].commitment.None?
    requires var p := t.headers[bottom].header.prev;
             p in t.headers ==> t.headers[p].commitment.Some?
                                && r.expectedPrev == Some(t.headers[p].commitment.value.header)
    ensures RequestFits(t, r)
    ensures forall x | InRange(t, r, x) :: t.headers[x].commitment.None?
  {
    assert Placed(t, bottom);
    forall x | InRange(t, r, x) ensures t.headers[x].commitment.None? {
      assert Placed(t, x);
      AncestorsAreOrdered(r.stopHash, bottom, x);
      if t.headers[x].commitment.Some? {
        CommittedDownward(t, x, bottom);
      }
    }
    forall x | InRange(t, r, x) && t.headers[x].height == r.startHeight ensures x == bottom {
      OnePerHeight(t, r.stopHash, x, bottom);
    }
    forall x | x in t.headers && !InRange(t, r, x) && InRange(t, r, t.headers[x].header.prev)
      ensures t.headers[x].commitment.None?
    {
      assert ChainsOn(t, x);
    }
  }

  /** The next request fits what is committed if and only if its stop hash suits. */
  lemma NextRequestFitsIff(t: Tree)
    requires Valid(t) && CommitmentsChain(t) && !AllCommitted(t)
    ensures RequestFits(t, NextRequest(t)) <==> StopSuits(t)
  {
    var r := NextRequest(t);
    var bottom := NextRequestSpans(t);
    var foot := FootExists(t, r);
    forall x | Foot(t, r, x) ensures x == foot {
      OnePerHeight(t, r.stopHash, x, foot);
    }
    if Active(t, foot) {
      OnePerHeight(t, t.tip.hash, foot, bottom);
      RequestFromBottom(t, r, bottom);
    } else {
      FootOffActive(t, r, bottom, foot);
    }
  }

  lemma FootOffActive(t: Tree, r: FilterHeaderRequest, bottom: Hash, foot: Hash)
    requires Valid(t) && Spans(t, r) && Foot(t, r, foot) && !Active(t, foot)
    requires Active(t, bottom) && t.headers[bottom].height == r.startHeight
    ensures RequestFits(t, r) <==> StandsBeside(t, r, foot)
  {
    RootByDepth(t, foot);
    RootByDepth(t, bottom);
    assert foot != bottom;
    assert t.headers[foot].header.prev in t.headers;
    assert InRange(t, r, foot);
    forall x | InRange(t, r, x) && t.headers[x].height == r.startHeight ensures x == foot {
      OnePerHeight(t, r.stopHash, x, foot);
    }
  }

  /** On an exact index every stop hash suits. */
  lemma ExactStopSuits(t: Tree)
    requires Valid(t) && Exact(t) && CommitmentsChain(t) && !AllCommitted(t)
    ensures StopSuits(t) && Active(t, NextRequest(t).stopHash)
  {
    var bottom := NextRequestSpans(t);
    var r := NextRequest(t);
    assert Placed(t, bottom) && Placed(t, t.tip.hash);
    DescendsDepth(t.tip.hash, bottom);
    StopIsActive(t, r.startHeight, CF_HEADER_BATCH_SIZE);
    var foot := FootExists(t, r);
    DescendsTransitive(t.tip.hash, r.stopHash, foot);
  }

  /** A request for filter headers on an unsynced chain with an exact index starts right above
      what is committed, stops on the active chain, and spans at most two thousand blocks, none
      of them committed. */
  lemma NextCFHeaderRequestFits(c: Chain)
    requires Valid(c.tree) && Exact(c.tree) && CommitmentsChain(c.tree) && !AllCommitted(c.tree)
    ensures var (c', m) := NextCFHeaderMessage(c);
            && c'.request.lastFilterHeaderRequest == Some(NextRequest(c.tree))
            && var r := NextRequest(c.tree);
               && RequestFits(c.tree, r) && FilterRequest(r.startHeight, r.stopHash) == m
               && Active(c.tree, m.stopHash)
               && m.startHeight <= c.tree.headers[m.stopHash].height < m.startHeight + 2_000
               && (forall x | InRange(c.tree, r, x) :: Active(c.tree, x) && c.tree.headers[x].commitment.None?)
  {
    ExactRequestFits(c.tree);
  }

  lemma ExactRequestFits(t: Tree)
    requires Valid(t) && Exact(t) && CommitmentsChain(t) && !AllCommitted(t)
    ensures var r := NextRequest(t);
            && RequestFits(t, r) && Active(t, r.stopHash)
            && r.startHeight <= t.headers[r.stopHash].height < r.startHeight + 2_000
            && (forall x | InRange(t, r, x) :: Active(t, x) && t.headers[x].commitment.None?)
  {
    var r := NextRequest(t);
    var bottom := NextRequestSpans(t);
    assert Placed(t, bottom) && Placed(t, t.tip.hash);
    DescendsDepth(t.tip.hash, bottom);
    StopIsActive(t, r.startHeight, CF_HEADER_BATCH_SIZE);
    AncestorsOfStop(t, r.stopHash, bottom);
    RequestFromBottom(t, r, bottom);
    forall x | InRange(t, r, x) ensures Active(t, x) {
      DescendsTransitive(t.tip.hash, r.stopHash, x);
    }
  }

  lemma AncestorsOfStop(t: Tree, stop: Hash, bottom: Hash)
    requires Valid(t) && Active(t, stop) && Active(t, bottom) && t.headers[bottom].height <= t.headers[stop].height
    ensures Descends(stop, bottom)
  {
    assert Placed(t, stop) && Placed(t, bottom);
    AncestorsAreOrdered(t.tip.hash, bottom, stop);
  }
}
