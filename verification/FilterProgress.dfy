/** Each completed round of filter headers, and each completed range of filters, brings the
    chain closer to being synced by exactly its length. */
module FilterProgress {
  import opened Hashes
  import opened Filters
  import opened Graph
  import opened GraphIndex
  import opened GraphFilters
  import opened BlockTrees
  import opened FilterHeaders
  import opened ChainState
  import opened FilterHeaderChain
  import opened FilterRequests

  // ---------- Counting headers on a chain ----------

  /** The stored headers on the walk from `x`, down to a height. */
  ghost function Segment(t: Tree, x: Hash, start: nat): set<Hash> {
    set y | y in t.headers && Descends(x, y) && start <= t.headers[y].height
  }

  lemma {:induction false} SegmentSize(t: Tree, x: Hash, start: nat)
    requires AllPlaced(t) && x in t.headers && t.origin.height < start <= t.headers[x].height + 1
    ensures |Segment(t, x, start)| == t.headers[x].height + 1 - start
    decreases x
  {
    assert Placed(t, x);
    var s := Segment(t, x, start);
    if start == t.headers[x].height + 1 {
      forall y | y in s ensures false {
        assert Placed(t, y);
        DescendsDepth(x, y);
      }
      assert s == {};
    } else if x.header.prev in t.headers {
      var p := x.header.prev;
      assert Placed(t, p);
      SegmentSize(t, p, start);
      if x in Segment(t, p, start) {
        DescendsDepth(p, x);
      }
      assert s == Segment(t, p, start) + {x};
    } else {
      RootByDepth(t, x);
      forall y | y in s ensures y == x {
        assert Placed(t, y);
        DescendsDepth(x, y);
      }
      assert s == {x};
    }
  }

  // ---------- Filter headers ----------

  lemma Removed(all: set<Hash>, gone: set<Hash>)
    ensures |all - gone| == |all| - |gone| <==> gone <= all
  {
    assert all == (all - gone) + (all * gone);
    if !(gone <= all) {
      assert gone == (all * gone) + (gone - all);
      assert gone - all != {};
    } else {
      assert all * gone == gone;
    }
  }

  /** A committed batch takes its range off the uncommitted headers. Their number falls by the
      length of the batch if and only if the stop hash is active and nothing in range was
      committed before. */
  lemma CommitLowersIff(t: Tree, r: FilterHeaderRequest, batch: Batch)
    requires Valid(t) && Judge(t, Some(r), batch) == Counts && t.origin.height < r.startHeight
    ensures Uncommitted(Commit(t, batch)) == Uncommitted(t) - Segment(t, r.stopHash, r.startHeight)
    ensures |Uncommitted(Commit(t, batch))| == |Uncommitted(t)| - |batch.inner|
       <==> Active(t, r.stopHash) && forall x | InRange(t, r, x) :: t.headers[x].commitment.None?
  {
    CommitTakesRange(t, r, batch);
    Removed(Uncommitted(t), Segment(t, r.stopHash, r.startHeight));
    RangeUncommittedIff(t, r);
  }

  lemma CommitTakesRange(t: Tree, r: FilterHeaderRequest, batch: Batch)
    requires Valid(t) && Judge(t, Some(r), batch) == Counts && t.origin.height < r.startHeight
    ensures Uncommitted(Commit(t, batch)) == Uncommitted(t) - Segment(t, r.stopHash, r.startHeight)
    ensures |Segment(t, r.stopHash, r.startHeight)| == |batch.inner|
    ensures r.stopHash in t.headers && r.startHeight <= t.headers[r.stopHash].height
  {
    var t', range := Commit(t, batch), Segment(t, r.stopHash, r.startHeight);
    BatchCommitsRange(t, r, batch, r.stopHash);
    SameShapeKeeps(t, t');
    SegmentSize(t, r.stopHash, r.startHeight);
    forall x ensures x in Uncommitted(t') <==> x in Uncommitted(t) - range {
      if x in t.headers {
        BatchCommitsRange(t, r, batch, x);
      }
    }
  }

  lemma RangeUncommittedIff(t: Tree, r: FilterHeaderRequest)
    requires Valid(t) && r.stopHash in t.headers && r.startHeight <= t.headers[r.stopHash].height
    ensures Segment(t, r.stopHash, r.startHeight) <= Uncommitted(t)
       <==> Active(t, r.stopHash) && forall x | InRange(t, r, x) :: t.headers[x].commitment.None?
  {
    var range := Segment(t, r.stopHash, r.startHeight);
    assert r.stopHash in range;
    forall x ensures x in range <==> InRange(t, r, x) {}
    if Active(t, r.stopHash) {
      forall x | x in range ensures Active(t, x) {
        DescendsTransitive(t.tip.hash, r.stopHash, x);
      }
    }
  }

  /** One round: a message, and the peers that send it. */
  datatype Round = Round(peers: seq<Peer>, message: CFHeaders)

  /** What the same message from one peer after another does. */
  ghost function Replies(c: Chain, peers: seq<Peer>, message: CFHeaders): (end: Chain)
    requires BelowQuorum(c.request.agreement)
    ensures BelowQuorum(end.request.agreement)
    decreases |peers|
  {
    if peers == [] then c
    else
      var before := Replies(c, peers[..|peers| - 1], message);
      VoteStaysBelowQuorum(before.request.agreement, peers[|peers| - 1], BatchOf(message));
      SyncCFHeaders(before, peers[|peers| - 1], message).0
  }

  ghost predicate Distinct(peers: seq<Peer>) {
    forall i, j | 0 <= i < j < |peers| :: peers[i] != peers[j]
  }

  ghost predicate NothingPending(a: Agreement) {
    a.pending == None && a.current == 0
  }

  /** Short of the quorum, agreeing replies are only counted; the last one commits. */
  lemma {:induction false} RepliesCommit(c: Chain, peers: seq<Peer>, message: CFHeaders)
    requires NothingPending(c.request.agreement) && Distinct(peers) && |peers| <= Need(c.request.agreement)
    requires Judge(c.tree, c.request.lastFilterHeaderRequest, BatchOf(message)) == Counts
    ensures var a, batch, end := c.request.agreement, BatchOf(message), Replies(c, peers, message);
            if |peers| < Need(a)
            then end == c.(request := c.request.(agreement :=
                   Agreement(if peers == [] then None else Some((peers[0], batch)), |peers|, a.required)))
            else end == c.(tree := Commit(c.tree, batch))
    decreases |peers|
  {
    if peers != [] {
      var n := |peers| - 1;
      RepliesCommit(c, peers[..n], message);
      assert 0 < n ==> peers[..n][0] == peers[0] != peers[n];
    }
  }

  /** The request is made now, and a quorum of distinct peers sends a message that answers it. */
  ghost predicate AnswersNext(c: Chain, round: Round) {
    && !AllCommitted(c.tree) && Distinct(round.peers) && |round.peers| == Need(c.request.agreement)
    && Judge(c.tree, NextCFHeaderMessage(c).0.request.lastFilterHeaderRequest, BatchOf(round.message)) == Counts
  }

  ghost function AfterRound(c: Chain, round: Round): Chain
    requires BelowQuorum(c.request.agreement)
  {
    Replies(NextCFHeaderMessage(c).0, round.peers, round.message)
  }

  ghost predicate Linked(c: Chain) {
    && Valid(c.tree) && Exact(c.tree) && CommitmentsChain(c.tree)
    && NothingPending(c.request.agreement)
  }

  /** A round commits the two thousand lowest uncommitted headers, or all that there are. */
  lemma RoundProgress(c: Chain, round: Round)
    requires Linked(c) && AnswersNext(c, round)
    ensures Linked(AfterRound(c, round))
    ensures AfterRound(c, round).request.agreement == c.request.agreement
    ensures var before, after := |Uncommitted(c.tree)|, |Uncommitted(AfterRound(c, round).tree)|;
            after == if 2_000 < before then before - 2_000 else 0
  {
    var t, batch := c.tree, BatchOf(round.message);
    NextCFHeaderRequestFits(c);
    RepliesCommit(NextCFHeaderMessage(c).0, round.peers, round.message);
    var r := NextRequest(t);
    CommitLowersIff(t, r, batch);
    BatchCommitsRange(t, r, batch, r.stopHash);
    CommitKeepsFilterChain(t, r, round.message);
    SameShapeKeeps(t, Commit(t, batch));
    UncommittedIsTop(c);
  }

  /** The uncommitted headers are the active ones from the start of the next request up. */
  lemma UncommittedIsTop(c: Chain)
    requires Linked(c) && !AllCommitted(c.tree)
    ensures var t, m := c.tree, NextCFHeaderMessage(c).1;
            && t.headers != map[] && m.stopHash in t.headers
            && |Uncommitted(t)| == t.tip.height + 1 - m.startHeight
            && t.headers[m.stopHash].height
               == (if m.startHeight + 1_999 <= t.tip.height then m.startHeight + 1_999 else t.tip.height)
  {
    var t := c.tree;
    UnsyncedTipIsUncommitted(t);
    var bottom := RunEnds(t, t.tip.hash, t.tip.height);
    assert Placed(t, bottom) && Placed(t, t.tip.hash);
    DescendsDepth(t.tip.hash, bottom);
    var start := t.headers[bottom].height;
    StopIsActive(t, start, CF_HEADER_BATCH_SIZE);
    SegmentSize(t, t.tip.hash, start);
    forall x | Active(t, x) && t.headers[x].height < start ensures t.headers[x].commitment.Some? {
      var p := t.headers[bottom].header.prev;
      assert Placed(t, x);
      BelowIsBelowParent(t, bottom, x);
      CommittedDownward(t, p, x);
    }
    assert Uncommitted(t) == Segment(t, t.tip.hash, start);
  }

  lemma BelowIsBelowParent(t: Tree, y: Hash, x: Hash)
    requires Valid(t) && Active(t, y) && Active(t, x) && t.headers[x].height < t.headers[y].height
    ensures var p := t.headers[y].header.prev; p in t.headers && Descends(p, x)
  {
    assert Placed(t, y) && Placed(t, x);
    AncestorsAreOrdered(t.tip.hash, x, y);
    RootByDepth(t, y);
  }

  ghost predicate GoodRounds(c: Chain, rounds: seq<Round>)
    requires Linked(c)
    decreases |rounds|
  {
    rounds == []
    || (AnswersNext(c, rounds[0]) && (RoundProgress(c, rounds[0]); GoodRounds(AfterRound(c, rounds[0]), rounds[1..])))
  }

  ghost function AfterRounds(c: Chain, rounds: seq<Round>): Chain
    requires Linked(c) && GoodRounds(c, rounds)
    decreases |rounds|
  {
    if rounds == [] then c else (RoundProgress(c, rounds[0]); AfterRounds(AfterRound(c, rounds[0]), rounds[1..]))
  }

  /** Repeated rounds of request, replies and quorum reach the synced state, in exactly as many
      rounds as it takes to cover the uncommitted headers two thousand at a time. */
  lemma {:induction false} RoundsReachSync(c: Chain, rounds: seq<Round>)
    requires Linked(c) && GoodRounds(c, rounds)
    ensures Linked(AfterRounds(c, rounds))
    ensures AllCommitted(AfterRounds(c, rounds).tree) <==> |Uncommitted(c.tree)| <= 2_000 * |rounds|
    decreases |rounds|
  {
    NoneLeft(c.tree);
    if rounds != [] {
      RoundProgress(c, rounds[0]);
      RoundsReachSync(AfterRound(c, rounds[0]), rounds[1..]);
    }
  }

  lemma NoneLeft(t: Tree)
    ensures AllCommitted(t) <==> |Uncommitted(t)| == 0
    ensures AllChecked(t) <==> |Unchecked(t)| == 0
  {
    if AllCommitted(t) {
      assert Uncommitted(t) == {};
    } else {
      var x :| Active(t, x) && t.headers[x].commitment.None?;
      assert x in Uncommitted(t);
    }
    if AllChecked(t) {
      assert Unchecked(t) == {};
    } else {
      var x :| Active(t, x) && !t.headers[x].checked;
      assert x in Unchecked(t);
    }
  }

  // ---------- Filters ----------

  /** On the active chain, below a checked header every header is checked. */
  ghost predicate PrefixChecked(t: Tree) {
    forall x, y | Active(t, x) && Active(t, y) && t.headers[y].height <= t.headers[x].height && t.headers[x].checked ::
      t.headers[y].checked
  }

  /** `x` is unchecked, and everything below it is checked. */
  ghost predicate LowestUnchecked(t: Tree, x: Hash) {
    && Active(t, x) && !t.headers[x].checked
    && forall y | Active(t, y) && t.headers[y].height < t.headers[x].height :: t.headers[y].checked
  }

  /** The run of unchecked headers below an unchecked `x` ends at one that is the lowest stored,
      or stands on a checked one. */
  lemma {:induction false} UncheckedRunEnds(t: Tree, x: Hash, lowest: nat) returns (bottom: Hash)
    requires AllPlaced(t) && x in t.headers && !t.headers[x].checked
    ensures bottom in t.headers && Descends(x, bottom)
    ensures UncheckedRun(t.headers, x, lowest) == t.headers[bottom].height
    ensures forall z | z in t.headers && Descends(x, z) && t.headers[bottom].height <= t.headers[z].height ::
              !t.headers[z].checked
    ensures var p := t.headers[bottom].header.prev; p in t.headers ==> t.headers[p].checked
    decreases x
  {
    assert Placed(t, x);
    var p := x.header.prev;
    if p in t.headers && !t.headers[p].checked {
      bottom := UncheckedRunEnds(t, p, t.headers[x].height);
      assert Placed(t, p) && Placed(t, bottom);
      forall z | z in t.headers && Descends(x, z) && t.headers[bottom].height <= t.headers[z].height
        ensures !t.headers[z].checked
      {
        assert Placed(t, z);
        if z != x {
          DescendsDepth(p, z);
        }
      }
    } else {
      bottom := x;
      if p in t.headers {
        assert Placed(t, p);
      }
      assert UncheckedRun(t.headers, x, lowest) == UncheckedRun(t.headers, p, t.headers[x].height);
      forall z | z in t.headers && Descends(x, z) && t.headers[x].height <= t.headers[z].height ensures z == x {
        assert Placed(t, z);
        DescendsDepth(x, z);
      }
    }
  }

  /** The next request for filters starts at the lowest unchecked header if and only if the
      checked headers form a prefix of the active chain. */
  lemma NextFilterStartsLowestIff(c: Chain)
    requires Valid(c.tree) && !AllChecked(c.tree)
    ensures c.tree.headers != map[] && c.tree.origin.height < NextFilterMessage(c).1.startHeight <= c.tree.tip.height
    ensures LowestUnchecked(c.tree, AtHeight(c.tree, NextFilterMessage(c).1.startHeight)) <==> PrefixChecked(c.tree)
  {
    var t := c.tree;
    var any :| Active(t, any) && !t.headers[any].checked;
    assert Placed(t, t.tip.hash);
    ActiveIsAtHeight(t, t.tip.hash);
    if t.headers[t.tip.hash].checked {
      assert !PrefixChecked(t) by {
        ActiveIsAtHeight(t, any);
      }
    } else {
      var bottom := UncheckedRunEnds(t, t.tip.hash, t.tip.height);
      ActiveIsAtHeight(t, bottom);
      LowestIffPrefix(t, bottom);
    }
  }

  lemma LowestIffPrefix(t: Tree, bottom: Hash)
    requires Valid(t) && Active(t, bottom)
    requires forall z | Active(t, z) && t.headers[bottom].height <= t.headers[z].height :: !t.headers[z].checked
    requires var p := t.headers[bottom].header.prev; p in t.headers ==> t.headers[p].checked
    ensures LowestUnchecked(t, bottom) <==> PrefixChecked(t)
  {
    if PrefixChecked(t) {
      forall y | Active(t, y) && t.headers[y].height < t.headers[bottom].height ensures t.headers[y].checked {
        BelowIsBelowParent(t, bottom, y);
        var p := t.headers[bottom].header.prev;
        assert Placed(t, bottom) && Placed(t, p);
        DescendsTransitive(t.tip.hash, bottom, p);
        assert Active(t, p);
      }
    }
  }

  /** Every request for filters stops on the active chain, at or above its start, and spans at
      most one thousand blocks. */
  lemma NextFilterRequestRange(c: Chain)
    requires Valid(c.tree) && Exact(c.tree) && c.tree.headers != map[]
    ensures var t, m := c.tree, NextFilterMessage(c).1;
            && Active(t, m.stopHash)
            && t.origin.height < m.startHeight <= t.headers[m.stopHash].height < m.startHeight + 1_000
  {
    var t := c.tree;
    assert Placed(t, t.tip.hash);
    ActiveIsAtHeight(t, t.tip.hash);
    if !t.headers[t.tip.hash].checked {
      var bottom := UncheckedRunEnds(t, t.tip.hash, t.tip.height);
      assert Placed(t, bottom);
      DescendsDepth(t.tip.hash, bottom);
    }
    StopIsActive(t, NextFilterMessage(c).1.startHeight, FILTER_BATCH_SIZE);
  }

  /** A filter that the chain takes without complaint. */
  ghost predicate Good(c: Chain, f: CFilter) {
    && CommitmentOf(c.tree, f.blockHash).Some?
    && CommitmentOf(c.tree, f.blockHash).value.filterHash == FilterHash(f.contents)
    && c.matcher(f.contents, f.blockHash, c.scripts).Some?
  }

  lemma CheckOffShape(c: Chain, f: CFilter)
    requires Valid(c.tree) && Good(c, f)
    ensures var c' := CheckOff(c, f);
            && c'.tree.headers == SetChecked(c.tree.headers, f.blockHash, true) && SameShape(c.tree, c'.tree)
            && c'.matcher == c.matcher && c'.scripts == c.scripts && c'.request == c.request
            && Valid(c'.tree) && (Exact(c.tree) ==> Exact(c'.tree))
            && Unchecked(c'.tree) == Unchecked(c.tree) - {f.blockHash}
  {
    var c' := CheckOff(c, f);
    var node := c.tree.headers[f.blockHash];
    assert c'.tree.headers == SetChecked(c.tree.headers, f.blockHash, true) by {
      if node.checked {
        assert c.tree.headers[f.blockHash := node.(checked := true)] == c.tree.headers;
      }
    }
    SameShapeKeeps(c.tree, c'.tree);
  }

  /** A good filter for the lowest unchecked header extends the prefix by one. */
  lemma GoodFilterExtendsPrefix(c: Chain, f: CFilter)
    requires Valid(c.tree) && PrefixChecked(c.tree) && Good(c, f) && LowestUnchecked(c.tree, f.blockHash)
    ensures var c' := CheckOff(c, f);
            PrefixChecked(c'.tree) && |Unchecked(c'.tree)| == |Unchecked(c.tree)| - 1
  {
    CheckOffShape(c, f);
    var t, t' := c.tree, CheckOff(c, f).tree;
    assert f.blockHash in Unchecked(t);
    forall x, y | Active(t', x) && Active(t', y) && t'.headers[y].height <= t'.headers[x].height && t'.headers[x].checked
      ensures t'.headers[y].checked
    {
      assert Active(t, x) && Active(t, y);
      if x == f.blockHash && y != x && t.headers[y].height == t.headers[x].height {
        OnePerHeight(t, t.tip.hash, x, y);
      }
    }
  }

  ghost function SyncFilters(c: Chain, fs: seq<CFilter>): Chain
    decreases |fs|
  {
    if fs == [] then c else SyncFilters(SyncFilter(c, fs[0]).0, fs[1..])
  }

  /** Good filters of consecutive active headers, from a height up. */
  ghost predicate InOrder(c: Chain, fs: seq<CFilter>, start: nat) {
    && (forall i | 0 <= i < |fs| :: Active(c.tree, fs[i].blockHash))
    && (forall i | 0 <= i < |fs| :: c.tree.headers[fs[i].blockHash].height == start + i)
    && (forall i | 0 <= i < |fs| :: Good(c, fs[i]))
  }

  /** Between the two ends of a range, a good filter is simply checked off. */
  lemma SyncGoodFilter(c: Chain, f: CFilter)
    requires !AllChecked(c.tree) && Good(c, f) && c.request.lastFilterRequest.Some?
    ensures var (c', result) := SyncFilter(c, f);
            && result.FilterOk?
            && (f.blockHash != c.request.lastFilterRequest.value.stopHash ==> result.next == None && c' == CheckOff(c, f))
            && (f.blockHash == c.request.lastFilterRequest.value.stopHash ==>
                  (result.next == None <==> AllChecked(CheckOff(c, f).tree))
                  && (result.next.Some? ==> result.next.value == NextFilterMessage(CheckOff(c, f)).1)
                  && c' == if AllChecked(CheckOff(c, f).tree) then CheckOff(c, f) else NextFilterMessage(CheckOff(c, f)).0)
  {
  }

  lemma AskingIsAsked(c: Chain)
    ensures NextFilterMessage(c).0.tree == c.tree
    ensures Asked(NextFilterMessage(c).0, Some(NextFilterMessage(c).1))
  {
  }

  /** The state after the last filter of a range, against the state `c` before the range. */
  ghost predicate RangeDone(c: Chain, size: nat, after: Chain, result: FilterResult) {
    && Valid(after.tree) && PrefixChecked(after.tree) && (Exact(c.tree) ==> Exact(after.tree))
    && |Unchecked(after.tree)| == |Unchecked(c.tree)| - size
    && result.FilterOk? && (result.next == None <==> AllChecked(after.tree))
    && (result.next.Some? ==> StartsLowest(after.tree, result.next.value.startHeight) && Asked(after, result.next))
  }

  /** The outstanding request is the one that the tree calls for. */
  ghost predicate Asked(c: Chain, request: Option<FilterRequest>) {
    c.request.lastFilterRequest == request == Some(NextFilterMessage(c).1)
  }

  ghost predicate StartsLowest(t: Tree, start: nat) {
    && Valid(t) && t.headers != map[] && t.origin.height < start <= t.tip.height
    && LowestUnchecked(t, AtHeight(t, start))
  }

  lemma LastOfRange(c: Chain, f: CFilter)
    requires Valid(c.tree) && PrefixChecked(c.tree) && Good(c, f) && LowestUnchecked(c.tree, f.blockHash)
    requires c.request.lastFilterRequest.Some? && c.request.lastFilterRequest.value.stopHash == f.blockHash
    ensures RangeDone(c, 1, SyncFilter(c, f).0, SyncFilter(c, f).1)
  {
    var c1 := CheckOff(c, f);
    SyncGoodFilter(c, f);
    CheckOffShape(c, f);
    GoodFilterExtendsPrefix(c, f);
    if !AllChecked(c1.tree) {
      NextFilterStartsLowestIff(c1);
      AskingIsAsked(c1);
    }
  }

  /** The filters are those of a range up to the last one requested, from the lowest unchecked
      header up. */
  ghost predicate RangeDue(c: Chain, fs: seq<CFilter>, start: nat) {
    && fs != [] && InOrder(c, fs, start) && Valid(c.tree) && PrefixChecked(c.tree)
    && LowestUnchecked(c.tree, fs[0].blockHash)
    && c.request.lastFilterRequest.Some? && c.request.lastFilterRequest.value.stopHash == fs[|fs| - 1].blockHash
  }

  /** A range whose filters all arrive in order lowers the unchecked count by its length; only
      the last filter asks for more, and it does exactly when something is left unchecked. */
  lemma {:induction false} RangeProgress(c: Chain, fs: seq<CFilter>, start: nat)
    requires RangeDue(c, fs, start)
    ensures var (after, result) := SyncFilter(SyncFilters(c, fs[..|fs| - 1]), fs[|fs| - 1]);
            RangeDone(c, |fs|, after, result)
    decreases |fs|
  {
    if |fs| == 1 {
      assert fs[..0] == [];
      LastOfRange(c, fs[0]);
    } else {
      var c1 := CheckOff(c, fs[0]);
      NextInOrder(c, fs, start);
      RangeProgress(c1, fs[1..], start + 1);
      SkipFirst(c, fs);
      var (after, result) := SyncFilter(SyncFilters(c1, fs[1..][..|fs[1..]| - 1]), fs[|fs| - 1]);
      RangeOneMore(c, c1, |fs| - 1, after, result);
    }
  }

  lemma RangeOneMore(c: Chain, c1: Chain, size: nat, after: Chain, result: FilterResult)
    requires RangeDone(c1, size, after, result) && |Unchecked(c1.tree)| == |Unchecked(c.tree)| - 1
    requires Exact(c.tree) ==> Exact(c1.tree)
    ensures RangeDone(c, size + 1, after, result)
  {
  }

  lemma SkipFirst(c: Chain, fs: seq<CFilter>)
    requires 1 < |fs| && Good(c, fs[0]) && SyncFilter(c, fs[0]).0 == CheckOff(c, fs[0])
    ensures SyncFilters(c, fs[..|fs| - 1]) == SyncFilters(CheckOff(c, fs[0]), fs[1..][..|fs[1..]| - 1])
    ensures fs[1..][|fs[1..]| - 1] == fs[|fs| - 1]
  {
    assert fs[..|fs| - 1][1..] == fs[1..][..|fs[1..]| - 1];
  }

  lemma NextInOrder(c: Chain, fs: seq<CFilter>, start: nat)
    requires 1 < |fs| && RangeDue(c, fs, start)
    ensures Good(c, fs[0])
    ensures var c1 := CheckOff(c, fs[0]);
            && SyncFilter(c, fs[0]).0 == c1 && RangeDue(c1, fs[1..], start + 1)
            && |Unchecked(c1.tree)| == |Unchecked(c.tree)| - 1 && (Exact(c.tree) ==> Exact(c1.tree))
  {
    var c1, t := CheckOff(c, fs[0]), c.tree;
    assert c.tree.headers[fs[0].blockHash].height == start;
    assert c.tree.headers[fs[|fs| - 1].blockHash].height == start + |fs| - 1;
    assert !AllChecked(t);
    SyncGoodFilter(c, fs[0]);
    CheckOffShape(c, fs[0]);
    GoodFilterExtendsPrefix(c, fs[0]);
    SameShapeKeeps(t, c1.tree);
    NextLowest(t, c1.tree, fs[0].blockHash, fs[1].blockHash);
    RestInOrder(c, c1, fs, start);
  }

  lemma RestInOrder(c: Chain, c': Chain, fs: seq<CFilter>, start: nat)
    requires InOrder(c, fs, start) && fs != [] && Valid(c.tree)
    requires SameShape(c.tree, c'.tree) && c'.matcher == c.matcher && c'.scripts == c.scripts
    requires c'.tree.headers == SetChecked(c.tree.headers, fs[0].blockHash, true)
    ensures InOrder(c', fs[1..], start + 1)
  {
    SameShapeKeeps(c.tree, c'.tree);
    forall i | 0 <= i < |fs[1..]|
      ensures Active(c'.tree, fs[1..][i].blockHash) && Good(c', fs[1..][i])
              && c'.tree.headers[fs[1..][i].blockHash].height == start + 1 + i
    {
      var f := fs[i + 1];
      assert fs[1..][i] == f && Active(c.tree, f.blockHash) && Good(c, f);
    }
  }

  lemma NextLowest(t: Tree, t': Tree, x: Hash, y: Hash)
    requires Valid(t) && PrefixChecked(t) && LowestUnchecked(t, x) && Active(t, y)
    requires t.headers[y].height == t.headers[x].height + 1
    requires SameShape(t, t') && t'.headers == SetChecked(t.headers, x, true)
    ensures LowestUnchecked(t', y)
  {
    forall z | Active(t', z) && t'.headers[z].height < t'.headers[y].height ensures t'.headers[z].checked {
      assert Active(t, z);
      if t.headers[z].height == t.headers[x].height {
        OnePerHeight(t, t.tip.hash, x, z);
      }
    }
  }

  /** A prefix of the active chain is checked, and the next filters are asked for. */
  ghost predicate Scanning(c: Chain) {
    && Valid(c.tree) && Exact(c.tree) && PrefixChecked(c.tree)
    && (AllChecked(c.tree) || Asked(c, c.request.lastFilterRequest))
  }

  /** The filters of the outstanding request, all good and in order. */
  ghost predicate AnswersRequest(c: Chain, fs: seq<CFilter>) {
    && !AllChecked(c.tree) && c.request.lastFilterRequest.Some? && fs != []
    && InOrder(c, fs, c.request.lastFilterRequest.value.startHeight)
    && c.request.lastFilterRequest.value.stopHash == fs[|fs| - 1].blockHash
  }

  lemma FirstAsk(c: Chain)
    requires Valid(c.tree) && Exact(c.tree) && PrefixChecked(c.tree)
    ensures Scanning(NextFilterMessage(c).0)
  {
  }

  /** The unchecked headers are the active ones from the start of the request up, and the request
      spans a thousand of them, or all. */
  lemma RequestSpan(c: Chain, fs: seq<CFilter>)
    requires Scanning(c) && AnswersRequest(c, fs)
    ensures LowestUnchecked(c.tree, fs[0].blockHash)
    ensures |fs| == if 1_000 < |Unchecked(c.tree)| then 1_000 else |Unchecked(c.tree)|
  {
    var t, start := c.tree, NextFilterMessage(c).1.startHeight;
    NextFilterStartsLowestIff(c);
    StopIsActive(t, start, FILTER_BATCH_SIZE);
    var first := fs[0].blockHash;
    ActiveIsAtHeight(t, first);
    assert Placed(t, t.tip.hash);
    SegmentSize(t, t.tip.hash, start);
    forall x | Active(t, x) ensures t.headers[x].checked <==> t.headers[x].height < t.headers[first].height {}
    assert Unchecked(t) == Segment(t, t.tip.hash, start);
  }

  lemma {:induction false} SyncFiltersLast(c: Chain, fs: seq<CFilter>)
    requires fs != []
    ensures SyncFilters(c, fs) == SyncFilter(SyncFilters(c, fs[..|fs| - 1]), fs[|fs| - 1]).0
    decreases |fs|
  {
    if |fs| == 1 {
      assert fs[..0] == [] && fs[1..] == [];
    } else {
      SyncFiltersLast(SyncFilter(c, fs[0]).0, fs[1..]);
      assert fs[..|fs| - 1][1..] == fs[1..][..|fs[1..]| - 1];
    }
  }

  /** A range checks off the thousand lowest unchecked headers, or all that there are. */
  lemma RangeLowers(c: Chain, fs: seq<CFilter>)
    requires Scanning(c) && AnswersRequest(c, fs)
    ensures Scanning(SyncFilters(c, fs))
    ensures var before, after := |Unchecked(c.tree)|, |Unchecked(SyncFilters(c, fs).tree)|;
            after == if 1_000 < before then before - 1_000 else 0
  {
    RequestSpan(c, fs);
    RangeProgress(c, fs, c.request.lastFilterRequest.value.startHeight);
    SyncFiltersLast(c, fs);
  }

  ghost predicate GoodRanges(c: Chain, ranges: seq<seq<CFilter>>)
    decreases |ranges|
  {
    ranges == [] || (AnswersRequest(c, ranges[0]) && GoodRanges(SyncFilters(c, ranges[0]), ranges[1..]))
  }

  ghost function AfterRanges(c: Chain, ranges: seq<seq<CFilter>>): Chain
    decreases |ranges|
  {
    if ranges == [] then c else AfterRanges(SyncFilters(c, ranges[0]), ranges[1..])
  }

  /** Once the first range is asked for, each range that arrives in order asks for the next, and
      they check everything in exactly as many ranges as it takes to cover the unchecked headers
      a thousand at a time. */
  lemma {:induction false} RangesReachSync(c: Chain, ranges: seq<seq<CFilter>>)
    requires Scanning(c) && GoodRanges(c, ranges)
    ensures Scanning(AfterRanges(c, ranges))
    ensures AllChecked(AfterRanges(c, ranges).tree) <==> |Unchecked(c.tree)| <= 1_000 * |ranges|
    decreases |ranges|
  {
    NoneLeft(c.tree);
    if ranges != [] {
      RangeLowers(c, ranges[0]);
      RangesReachSync(SyncFilters(c, ranges[0]), ranges[1..]);
    }
  }
}
