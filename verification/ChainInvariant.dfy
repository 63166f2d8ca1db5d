/** What every operation on the chain keeps: the history and the queue agree, filter headers
    chain, and the table follows the index. */
module ChainInvariant {
  import opened Commons
  import opened Hashes
  import opened Filters
  import opened Graph
  import opened GraphInvariant
  import opened GraphFilters
  import opened FilterHeaders
  import opened ChainState
  import opened FilterHeaderChain
  import opened FilterRequests
  import opened ChainPersistence
  import HeaderStores
  import BlockQueues
  import BlockTrees

  // ---------- The history ----------

  /** Where the block of a header stands: nothing due, its download due, or its download given
      up because the header was disconnected meanwhile. */
  datatype Standing = Clear | Owed | Lost

  ghost function StandingAfter(before: Standing, e: Entry, x: Hash): Standing {
    if e.Checked? && e.hash == x then (if e.matched then Owed else Clear)
    else if e.Disconnected? && before == Owed && x in e.gone then Lost
    else if e.Delivered? && e.block == x then Clear
    else before
  }

  ghost function Status(log: seq<Entry>, x: Hash): Standing
    decreases |log|
  {
    if log == [] then Clear
    else StandingAfter(Status(log[..|log| - 1], x), log[|log| - 1], x)
  }

  lemma StatusAfter(log: seq<Entry>, last: Entry, x: Hash)
    ensures Status(log + [last], x) == StandingAfter(Status(log, x), last, x)
  {
    assert (log + [last])[..|log|] == log;
  }

  /** The filter of `x` was last checked at entry `i`, and it matched. */
  ghost predicate LastMatchedAt(log: seq<Entry>, x: Hash, i: nat) {
    && i < |log| && log[i].Checked? && log[i].hash == x && log[i].matched
    && forall j | i < j < |log| :: !(log[j].Checked? && log[j].hash == x)
  }

  ghost predicate DeliveredAfter(log: seq<Entry>, x: Hash, i: nat) {
    exists j :: i < j < |log| && log[j] == Delivered(x)
  }

  ghost predicate WasDisconnected(log: seq<Entry>, x: Hash) {
    exists j :: 0 <= j < |log| && log[j].Disconnected? && x in log[j].gone
  }

  /** If the last check of a filter matched, then nothing is due exactly when the block was
      delivered after that check. */
  lemma {:induction false} ClearMeansDelivered(log: seq<Entry>, x: Hash, i: nat)
    requires LastMatchedAt(log, x, i)
    ensures Status(log, x) == Clear <==> DeliveredAfter(log, x, i)
    ensures Status(log, x) == Lost ==> WasDisconnected(log, x)
    decreases |log|
  {
    var n := |log| - 1;
    var front, last := log[..n], log[n];
    assert log == front + [last];
    StatusAfter(front, last, x);
    if i < n {
      assert LastMatchedAt(front, x, i);
      ClearMeansDelivered(front, x, i);
      if DeliveredAfter(front, x, i) {
        var j :| i < j < |front| && front[j] == Delivered(x);
        assert log[j] == Delivered(x);
      }
      if WasDisconnected(front, x) {
        var j :| 0 <= j < |front| && front[j].Disconnected? && x in front[j].gone;
        assert log[j] == front[j];
      }
      if DeliveredAfter(log, x, i) && last != Delivered(x) {
        var j :| i < j < |log| && log[j] == Delivered(x);
        assert front[j] == Delivered(x);
      }
    }
  }

  /** `x` was assumed checked, or its filter was seen to have the committed hash. */
  ghost predicate Justified(log: seq<Entry>, x: Hash) {
    exists i :: 0 <= i < |log| && Justifies(log[i], x)
  }

  ghost predicate Justifies(e: Entry, x: Hash) {
    || (e.Assumed? && x in e.assumed)
    || (e.Checked? && e.hash == x && e.commitment.filterHash == FilterHash(e.contents))
  }

  lemma JustifiedLater(log: seq<Entry>, last: Entry, x: Hash)
    ensures Justified(log, x) || Justifies(last, x) ==> Justified(log + [last], x)
  {
    var longer := log + [last];
    if Justified(log, x) {
      var i :| 0 <= i < |log| && Justifies(log[i], x);
      assert Justifies(longer[i], x);
    } else if Justifies(last, x) {
      assert Justifies(longer[|log|], x);
    }
  }

  ghost predicate Announced(events: seq<Event>, x: Hash) {
    exists j :: 0 <= j < |events| && events[j].BlockFound? && events[j].hash == x
  }

  // ---------- The accounts ----------

  /** Every flag is justified, every block that is due is in the queue, and every delivery was
      announced to the user. */
  ghost predicate Accounted(c: Chain) {
    && Valid(c.tree)
    && (forall x | x in c.tree.headers && c.tree.headers[x].checked :: Justified(c.log, x))
    && (forall x | Status(c.log, x) == Owed :: InQueue(c, x))
    && (forall i | 0 <= i < |c.log| && c.log[i].Delivered? :: Announced(c.events, c.log[i].block))
  }

  /** `c'` has the flags, queue, history and events of `c`. */
  ghost predicate SameAccounts(c: Chain, c': Chain) {
    && c'.log == c.log && c'.events == c.events
    && (forall x :: InQueue(c, x) <==> InQueue(c', x))
    && (forall x | x in c'.tree.headers && c'.tree.headers[x].checked :: x in c.tree.headers && c.tree.headers[x].checked)
  }

  lemma SameAccountsKeeps(c: Chain, c': Chain)
    requires Accounted(c) && SameAccounts(c, c') && Valid(c'.tree)
    ensures Accounted(c')
  {
  }

  lemma AnnouncedLater(events: seq<Event>, last: Event, x: Hash)
    ensures Announced(events, x) ==> Announced(events + [last], x)
  {
    if Announced(events, x) {
      var j :| 0 <= j < |events| && events[j].BlockFound? && events[j].hash == x;
      assert (events + [last])[j] == events[j];
    }
  }

  /** One more entry, and perhaps one more event, in the books. */
  lemma EntryKeepsAccounts(c: Chain, c': Chain, last: Entry)
    requires Accounted(c) && Valid(c'.tree) && c'.log == c.log + [last]
    requires c'.events == c.events || exists e :: c'.events == c.events + [e]
    requires forall x | x in c'.tree.headers && c'.tree.headers[x].checked ::
               (x in c.tree.headers && c.tree.headers[x].checked) || Justifies(last, x)
    requires forall x | Status(c'.log, x) == Owed :: InQueue(c', x)
    requires last.Delivered? ==> Announced(c'.events, last.block)
    ensures Accounted(c')
  {
    forall x | x in c'.tree.headers && c'.tree.headers[x].checked ensures Justified(c'.log, x) {
      JustifiedLater(c.log, last, x);
    }
    forall i | 0 <= i < |c'.log| && c'.log[i].Delivered? ensures Announced(c'.events, c'.log[i].block) {
      if i < |c.log| {
        assert c'.log[i] == c.log[i] && Announced(c.events, c.log[i].block);
        if e :| c'.events == c.events + [e] {
          AnnouncedLater(c.events, e, c.log[i].block);
        }
      }
    }
  }

  lemma AcceptChecksNothing(t: Tree, h: Header)
    requires Valid(t)
    ensures forall x | x in Accept(t, h).0.headers && Accept(t, h).0.headers[x].checked ::
              x in t.headers && t.headers[x].checked
  {
    InsertedLeaf(t, h);
  }

  /** Whatever becomes of the header, the books change at most by what was disconnected. */
  lemma AbsorbOneBooks(c: Chain, h: Header, next: Option<Checkpoint>)
    ensures var (c', changes) := (AbsorbOne(c, h, next).chain, Accept(c.tree, h).1);
            && c'.tree == Accept(c.tree, h).0
            && (!changes.Reorganization? ==> c'.log == c.log && c'.events == c.events && c'.queue == c.queue)
            && (changes.Reorganization? ==>
                  var gone := BlockHashes(changes.disconnected);
                  && c'.log == c.log + [Disconnected(gone)]
                  && c'.events == c.events + [BlocksDisconnected(Reversed(changes.disconnected))]
                  && c'.queue == BlockQueues.Remove(c.queue, gone))
  {
  }

  lemma DisconnectKeepsAccounts(c: Chain, c': Chain, gone: seq<Hash>, e: Event)
    requires Accounted(c) && Valid(c'.tree) && c'.log == c.log + [Disconnected(gone)]
    requires c'.events == c.events + [e] && c'.queue == BlockQueues.Remove(c.queue, gone)
    requires forall x | x in c'.tree.headers && c'.tree.headers[x].checked ::
               x in c.tree.headers && c.tree.headers[x].checked
    ensures Accounted(c')
  {
    forall x | Status(c'.log, x) == Owed ensures InQueue(c', x) {
      StatusAfter(c.log, Disconnected(gone), x);
      BlockQueues.RetainMember(c.queue.queue, gone, x);
    }
    EntryKeepsAccounts(c, c', Disconnected(gone));
  }

  lemma AbsorbOneAccounts(c: Chain, h: Header, next: Option<Checkpoint>)
    requires Accounted(c)
    ensures Accounted(AbsorbOne(c, h, next).chain)
  {
    var c', changes := AbsorbOne(c, h, next).chain, Accept(c.tree, h).1;
    AcceptValid(c.tree, h);
    AcceptChecksNothing(c.tree, h);
    AbsorbOneBooks(c, h, next);
    if changes.Reorganization? {
      DisconnectKeepsAccounts(c, c', BlockHashes(changes.disconnected), BlocksDisconnected(Reversed(changes.disconnected)));
    } else {
      SameAccountsKeeps(c, c');
    }
  }

  lemma {:induction false} AbsorbAllAccounts(c: Chain, hs: seq<Header>, next: Option<Checkpoint>)
    requires Accounted(c)
    ensures Accounted(AbsorbAll(c, hs, next).chain)
    decreases |hs|
  {
    if hs != [] {
      AbsorbOneAccounts(c, hs[0], next);
      AbsorbAllAccounts(AbsorbOne(c, hs[0], next).chain, hs[1..], next);
    }
  }

  lemma SyncChainAccounts(c: Chain, hs: seq<Header>, fault: HeaderStores.Fault)
    requires Accounted(c)
    ensures Accounted(SyncChain(c, hs, fault).0)
  {
    var a := AbsorbAll(c, hs, NextCheckpoint(c));
    AbsorbAllAccounts(c, hs, NextCheckpoint(c));
    var c' := SyncChain(c, hs, fault).0;
    if c' != c {
      SameAccountsKeeps(a.chain, c');
    }
  }

  /** A filter that is checked off: it has the committed hash, and it decodes if it must. */
  ghost predicate Checkable(c: Chain, f: CFilter) {
    && CommitmentOf(c.tree, f.blockHash).Some?
    && CommitmentOf(c.tree, f.blockHash).value.filterHash == FilterHash(f.contents)
    && (InQueue(c, f.blockHash) || c.tree.headers[f.blockHash].checked
        || c.matcher(f.contents, f.blockHash, c.scripts).Some?)
  }

  lemma CheckOffAccounts(c: Chain, f: CFilter)
    requires Accounted(c) && Checkable(c, f)
    ensures Accounted(CheckOff(c, f))
  {
    var x, c', node := f.blockHash, CheckOff(c, f), c.tree.headers[f.blockHash];
    if !node.checked {
      var matched := c.matcher(f.contents, x, c.scripts) == Some(true);
      var last := Checked(x, f.contents, node.commitment.value, matched);
      SameShapeKeeps(c.tree, c'.tree);
      CheckOffQueues(c, f);
      EntryKeepsAccounts(c, c', last);
    }
  }

  /** Whose block is due after a filter is checked off is in the queue. */
  lemma CheckOffQueues(c: Chain, f: CFilter)
    requires Accounted(c) && Checkable(c, f)
    ensures forall y | Status(CheckOff(c, f).log, y) == Owed :: InQueue(CheckOff(c, f), y)
  {
    var x, c', node := f.blockHash, CheckOff(c, f), c.tree.headers[f.blockHash];
    if !node.checked {
      var matched := c.matcher(f.contents, x, c.scripts) == Some(true);
      forall y | Status(c'.log, y) == Owed ensures InQueue(c', y) {
        StatusAfter(c.log, Checked(x, f.contents, node.commitment.value, matched), y);
      }
    }
  }

  /** A filter is refused, or checked off; the next request may follow. */
  lemma SyncFilterParts(c: Chain, f: CFilter)
    ensures var c' := SyncFilter(c, f).0;
            || c' == c
            || (Checkable(c, f) && (c' == CheckOff(c, f) || c' == NextFilterMessage(CheckOff(c, f)).0))
  {
  }

  lemma SyncFilterAccounts(c: Chain, f: CFilter)
    requires Accounted(c)
    ensures Accounted(SyncFilter(c, f).0)
  {
    SyncFilterParts(c, f);
    if Checkable(c, f) {
      CheckOffAccounts(c, f);
      SameAccountsKeeps(CheckOff(c, f), NextFilterMessage(CheckOff(c, f)).0);
    }
  }

  lemma CheckSendBlockAccounts(c: Chain, b: Block)
    requires Accounted(c)
    ensures Accounted(CheckSendBlock(c, b).0)
  {
    var c', x := CheckSendBlock(c, b).0, b.header.BlockHash();
    if c' != c {
      var last, e := Delivered(x), BlockFound(x, c.tree.headers[x].height);
      assert c'.events == c.events + [e] && c'.events[|c.events|] == e;
      forall y | Status(c'.log, y) == Owed ensures InQueue(c', y) {
        StatusAfter(c.log, last, y);
      }
      EntryKeepsAccounts(c, c', last);
    }
  }

  lemma SyncCFHeadersAccounts(c: Chain, peer: Peer, message: CFHeaders)
    requires Accounted(c) && BelowQuorum(c.request.agreement)
    requires c.request.lastFilterHeaderRequest.Some? ==>
               c.tree.origin.height < c.request.lastFilterHeaderRequest.value.startHeight
    ensures Accounted(SyncCFHeaders(c, peer, message).0)
  {
    var c' := SyncCFHeaders(c, peer, message).0;
    var batch, r := BatchOf(message), c.request.lastFilterHeaderRequest;
    if Judge(c.tree, r, batch) == Counts {
      BatchCommitsRange(c.tree, r.value, batch, r.value.stopHash);
      forall x | x in c'.tree.headers && c'.tree.headers[x].checked
        ensures x in c.tree.headers && c.tree.headers[x].checked
      {
        BatchCommitsRange(c.tree, r.value, batch, x);
      }
      SameShapeKeeps(c.tree, Commit(c.tree, batch));
      SameAccountsKeeps(c, c');
    }
  }

  lemma ClearFiltersAccounts(c: Chain)
    requires Accounted(c)
    ensures Accounted(ClearFilters(c))
  {
    BlockTreesReset(c.tree);
    forall x | x in ClearFilters(c).tree.headers && ClearFilters(c).tree.headers[x].checked
      ensures x in c.tree.headers && c.tree.headers[x].checked
    {
      ResetKeepsFlagIff(c.tree, x);
    }
    SameAccountsKeeps(c, ClearFilters(c));
  }

  lemma BlockTreesReset(t: Tree)
    requires Valid(t)
    ensures SameShape(t, ResetFilters(t)) && Valid(ResetFilters(t))
    ensures forall x :: Active(t, x) <==> Active(ResetFilters(t), x)
    ensures forall x | x in t.headers :: ResetFilters(t).headers[x].commitment == t.headers[x].commitment
  {
    BlockTrees.ResetKeepsShape(t);
    SameShapeKeeps(t, ResetFilters(t));
    forall x | x in t.headers ensures ResetFilters(t).headers[x].commitment == t.headers[x].commitment {
      ResetKeepsFlagIff(t, x);
    }
  }

  // ---------- Requests ----------

  /** An outstanding request for filter headers starts above the origin. */
  ghost predicate RequestAbove(c: Chain) {
    var r := c.request.lastFilterHeaderRequest;
    r.Some? ==> c.tree.origin.height < r.value.startHeight
  }

  lemma {:induction false} RunStaysAbove(t: Tree, x: Hash, lowest: nat)
    requires AllPlaced(t) && t.origin.height < lowest
    ensures t.origin.height < UncommittedRun(t.headers, x, lowest).0
    decreases x
  {
    if x.Of? && x in t.headers && t.headers[x].commitment.None? {
      assert Placed(t, x);
      RunStaysAbove(t, x.header.prev, t.headers[x].height);
    }
  }

  lemma UnsyncedIsAbove(c: Chain)
    requires Valid(c.tree) && !AllCommitted(c.tree)
    ensures RequestAbove(NextCFHeaderMessage(c).0)
  {
    assert Placed(c.tree, c.tree.tip.hash);
    RunStaysAbove(c.tree, c.tree.tip.hash, c.tree.tip.height);
  }

  // ---------- Filter headers chain ----------

  ghost predicate FilterChained(c: Chain) {
    Valid(c.tree) && FilterChainInv(c.tree, c.request.lastFilterHeaderRequest)
  }

  /** Only flags differ. */
  ghost predicate SameCommitments(t: Tree, t': Tree) {
    SameShape(t, t') && forall x | x in t.headers :: t'.headers[x].commitment == t.headers[x].commitment
  }

  lemma FlagsKeepFilterChained(c: Chain, c': Chain)
    requires FilterChained(c) && SameCommitments(c.tree, c'.tree)
    requires c'.request.lastFilterHeaderRequest == c.request.lastFilterHeaderRequest
    ensures FilterChained(c')
  {
    var t, t' := c.tree, c'.tree;
    SameShapeKeeps(t, t');
    forall x | x in t'.headers ensures ChainsOn(t', x) {
      assert ChainsOn(t, x);
    }
    var r := c.request.lastFilterHeaderRequest;
    if r.Some? {
      assert RequestFits(t, r.value);
      forall x ensures InRange(t', r.value, x) <==> InRange(t, r.value, x) {}
      forall x | x in t'.headers && !InRange(t', r.value, x) && InRange(t', r.value, t'.headers[x].header.prev)
        ensures t'.headers[x].commitment.None?
      {
        assert !InRange(t, r.value, x) && InRange(t, r.value, t.headers[x].header.prev);
      }
    }
  }

  lemma {:induction false} AbsorbAllFilterChained(c: Chain, hs: seq<Header>, next: Option<Checkpoint>)
    requires FilterChained(c)
    ensures FilterChained(AbsorbAll(c, hs, next).chain)
    ensures AbsorbAll(c, hs, next).chain.request == c.request
    decreases |hs|
  {
    if hs != [] {
      AbsorbOneParts(c, hs[0], next);
      AcceptValid(c.tree, hs[0]);
      AcceptKeepsFilterChain(c.tree, hs[0], c.request.lastFilterHeaderRequest);
      AbsorbOneRequest(c, hs[0], next);
      AbsorbAllFilterChained(AbsorbOne(c, hs[0], next).chain, hs[1..], next);
    }
  }

  lemma AbsorbOneRequest(c: Chain, h: Header, next: Option<Checkpoint>)
    ensures AbsorbOne(c, h, next).chain.request == c.request
    ensures AbsorbOne(c, h, next).chain.tree == Accept(c.tree, h).0
  {
  }

  lemma SyncChainTree(c: Chain, hs: seq<Header>, fault: HeaderStores.Fault)
    ensures SyncChain(c, hs, fault).0.tree
         == if hs != [] && hs[|hs| - 1].BlockHash() !in c.tree.headers && hs[|hs| - 1].BlockHash() != c.tree.tip.hash
               && SanityCheck(c.tree.net, hs) == None
            then AbsorbAll(c, hs, NextCheckpoint(c)).chain.tree else c.tree
  {
  }

  lemma SyncChainRequest(c: Chain, hs: seq<Header>, fault: HeaderStores.Fault)
    ensures var c', a := SyncChain(c, hs, fault).0, AbsorbAll(c, hs, NextCheckpoint(c)).chain;
            || (c'.tree == c.tree && c'.request == c.request)
            || (c'.tree == a.tree
                && (c'.request.lastFilterHeaderRequest == None || c'.request == a.request)
                && c'.request.agreement.required == a.request.agreement.required
                && (c'.request.agreement.current == 0 || c'.request == a.request))
  {
  }

  lemma SyncChainFilterChained(c: Chain, hs: seq<Header>, fault: HeaderStores.Fault)
    requires FilterChained(c)
    ensures FilterChained(SyncChain(c, hs, fault).0)
  {
    AbsorbAllFilterChained(c, hs, NextCheckpoint(c));
    SyncChainRequest(c, hs, fault);
  }

  lemma SyncCFHeadersFilterChained(c: Chain, peer: Peer, message: CFHeaders)
    requires FilterChained(c) && BelowQuorum(c.request.agreement)
    ensures FilterChained(SyncCFHeaders(c, peer, message).0)
  {
    var batch, r := BatchOf(message), c.request.lastFilterHeaderRequest;
    if Judge(c.tree, r, batch) == Counts {
      CommitKeepsFilterChain(c.tree, r.value, message);
      BatchCommitsRange(c.tree, r.value, batch, r.value.stopHash);
      SameShapeKeeps(c.tree, Commit(c.tree, batch));
    }
  }

  lemma NextCFHeaderFilterChained(c: Chain)
    requires FilterChained(c) && !AllCommitted(c.tree)
    ensures FilterChained(NextCFHeaderMessage(c).0) <==> StopSuits(c.tree)
  {
    NextRequestFitsIff(c.tree);
    assert NextCFHeaderMessage(c).0.request.lastFilterHeaderRequest == Some(NextRequest(c.tree));
  }

  /** Nothing but flags, the queue, the history and the request for filters changes. */
  ghost predicate OnlyChecks(c: Chain, c': Chain) {
    && SameCommitments(c.tree, c'.tree)
    && c'.request.lastFilterHeaderRequest == c.request.lastFilterHeaderRequest
    && c'.request.agreement == c.request.agreement && c'.store == c.store
    && (forall x | x in c.tree.headers && c.tree.headers[x].checked :: c'.tree.headers[x].checked)
  }

  lemma SyncFilterOnlyChecks(c: Chain, f: CFilter)
    ensures OnlyChecks(c, SyncFilter(c, f).0)
  {
    SyncFilterParts(c, f);
    if Checkable(c, f) {
      CheckOffOnlyChecks(c, f);
    }
  }

  lemma CheckOffOnlyChecks(c: Chain, f: CFilter)
    requires Checkable(c, f)
    ensures OnlyChecks(c, CheckOff(c, f))
  {
  }

  // ---------- The table follows the index ----------

  lemma ShapeKeepsRows(rows: map<nat, Header>, t: Tree, t': Tree)
    requires SameShape(t, t') && RowsAgree(rows, t)
    ensures RowsAgree(rows, t')
  {
    forall x ensures IsRoot(t, x) <==> IsRoot(t', x) {
      assert t.headers.Keys == t'.headers.Keys;
    }
    forall k | k in t'.index && t'.index[k] in t'.headers
      ensures k in rows && rows[k] == t'.headers[t'.index[k]].header
    {
      assert t.index[k] in t.headers;
    }
  }

  lemma SyncCFHeadersShape(c: Chain, peer: Peer, message: CFHeaders)
    requires Valid(c.tree) && RequestAbove(c) && BelowQuorum(c.request.agreement)
    ensures var c' := SyncCFHeaders(c, peer, message).0;
            && SameShape(c.tree, c'.tree) && c'.store == c.store
            && c'.request.lastFilterHeaderRequest == c.request.lastFilterHeaderRequest
            && BelowQuorum(c'.request.agreement)
            && (forall x | x in c.tree.headers :: c'.tree.headers[x].checked == c.tree.headers[x].checked)
  {
    var batch, r := BatchOf(message), c.request.lastFilterHeaderRequest;
    VoteStaysBelowQuorum(c.request.agreement, peer, batch);
    if Judge(c.tree, r, batch) == Counts {
      BatchCommitsRange(c.tree, r.value, batch, r.value.stopHash);
      forall x | x in c.tree.headers
        ensures SyncCFHeaders(c, peer, message).0.tree.headers[x].checked == c.tree.headers[x].checked
      {
        BatchCommitsRange(c.tree, r.value, batch, x);
      }
    }
  }
}
