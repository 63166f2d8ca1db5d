/** The mutable chain, proved against the values in ChainState.dfy and ChainLoad.dfy. */
module Chains {
  import opened Commons
  import opened Hashes
  import opened Filters
  import opened Graph
  import opened GraphFilters
  import opened FilterHeaders
  import opened ChainState
  import opened ChainLoad
  import opened BlockTrees
  import opened BlockQueues
  import opened HeaderStores
  import opened Monitors

  class Chain {
    var headerChain: BlockTree
    var lastFilterRequest: Option<FilterRequest>
    var lastFilterHeaderRequest: Option<FilterHeaderRequest>
    var pendingBatch: Option<(Peer, Batch)>
    const agreements: FilterHeaderAgreements
    var checkpoints: seq<Checkpoint>
    const db: HeaderStore
    const heights: HeightMonitor
    var scripts: set<Script>
    const matcher: Matcher
    const blockQueue: BlockQueue
    var events: seq<Event>
    ghost var log: seq<Entry>

    ghost function Repr(): set<object>
      reads this
    {
      {this, headerChain, agreements, db, heights, blockQueue}
    }

    ghost function View(): ChainState.Chain
      reads Repr()
    {
      ChainState.Chain(
        headerChain.View(),
        RequestState(lastFilterRequest, lastFilterHeaderRequest,
                     Agreement(pendingBatch, agreements.current, agreements.required)),
        checkpoints, db.View(), heights.heights, scripts, matcher, blockQueue.View(), events, log)
    }

    ghost predicate Valid()
      reads Repr()
    {
      headerChain.Valid() && BelowQuorum(View().request.agreement)
    }

    constructor (network: Network, scripts: set<Script>, anchor: Checkpoint, checkpoints: seq<Checkpoint>,
                 table: map<nat, Header>, matcher: Matcher, quorumRequired: U8, now: nat)
      ensures Valid() && fresh(Repr())
      ensures var v := View();
              && v.tree == FromTip(network, Tip(anchor.hash, anchor.height, None))
              && v.request == RequestState(None, None, Agreement(None, 0, quorumRequired))
              && v.store == Store(table, map[], {}) && v.queue == Queue([], None, now)
              && v.checkpoints == checkpoints && v.scripts == scripts && v.matcher == matcher
              && v.heights == map[] && v.events == [] && v.log == []
    {
      headerChain := new BlockTree(Tip(anchor.hash, anchor.height, None), network);
      lastFilterRequest, lastFilterHeaderRequest, pendingBatch := None, None, None;
      agreements := new FilterHeaderAgreements(quorumRequired);
      this.checkpoints, this.scripts, this.matcher := checkpoints, scripts, matcher;
      db := new HeaderStore(table);
      heights := new HeightMonitor();
      blockQueue := new BlockQueue(now);
      events, log := [], [];
    }

    // ---------- Headers ----------

    /** Is the best height that any peer reported reached? */
    method IsSynced() returns (synced: bool)
      ensures synced <==> ChainState.IsSynced(View())
      ensures synced <==> (exists p :: p in heights.heights)
                          && forall p | p in heights.heights :: heights.heights[p] <= headerChain.activeTip.height
    {
      var max := heights.Max();
      synced := max.Some? && max.value <= headerChain.activeTip.height;
    }

    /** Take in one header of a batch. */
    method AbsorbHeader(header: Header, nextCheckpoint: Option<Checkpoint>)
      returns (error: Option<HeaderSyncError>, reorged: bool)
      requires Valid()
      modifies Repr()
      ensures Absorbed(View(), error, reorged) == AbsorbOne(old(View()), header, nextCheckpoint)
      ensures Valid() && Repr() == old(Repr())
    {
      error, reorged := None, false;
      var changes := headerChain.AcceptHeader(header);
      match changes
      case Accepted(connectedAt) =>
        db.StageChanges(HeaderStores.Connected(connectedAt));
        if nextCheckpoint.Some? && connectedAt.height == nextCheckpoint.value.height {
          if connectedAt.header.BlockHash() == nextCheckpoint.value.hash {
            checkpoints := PopFront(checkpoints);
          } else {
            error := Some(InvalidCheckpoint);
          }
        }
      case Duplicate =>
      case ExtendedFork(_) =>
      case Reorganization(accepted, disconnected) =>
        reorged := true;
        Disconnect(accepted, disconnected);
      case Rejected(reason) =>
        error := Some(if reason.InvalidPow? then InvalidBits else FloatingHeaders);
    }

    /** Drop the queued blocks of a branch that lost, and tell the store and the client. */
    method Disconnect(accepted: seq<Indexed>, disconnected: seq<Indexed>)
      requires Valid()
      modifies blockQueue, db, this`events, this`log
      ensures View() == Displacing(old(View()), accepted, disconnected)
    {
      var removed := BlockHashes(disconnected);
      blockQueue.RemoveBlocks(removed);
      db.StageChanges(HeaderStores.Reorganized(accepted, disconnected));
      events := events + [BlocksDisconnected(Reversed(disconnected))];
      log := log + [Disconnected(removed)];
    }

    /** Sync the chain with headers from a peer, adjusting to reorganizations if needed. */
    method SyncChain(message: seq<Header>, fault: Fault) returns (error: Option<HeaderSyncError>)
      requires Valid()
      modifies Repr()
      ensures (View(), error) == ChainState.SyncChain(old(View()), message, fault)
      ensures Valid() && Repr() == old(Repr())
    {
      ghost var start := View();
      if message == [] {
        return Some(EmptyMessage);
      }
      if headerChain.Contains(message[|message| - 1].BlockHash()) {
        return None;
      }
      error := ChainState.SanityCheck(headerChain.network, message);
      if error.Some? {
        return;
      }
      var reorged;
      error, reorged := AbsorbHeaders(message, if checkpoints == [] then None else Some(checkpoints[0]));
      if error.Some? {
        return;
      }
      var _ := db.WriteChanges(fault);
      if reorged {
        ClearCompactFilterQueue();
      }
    }

    /** Take in the headers of a batch in turn, up to the first that is refused. */
    method AbsorbHeaders(message: seq<Header>, nextCheckpoint: Option<Checkpoint>)
      returns (error: Option<HeaderSyncError>, reorged: bool)
      requires Valid()
      modifies Repr()
      ensures Absorbed(View(), error, reorged) == AbsorbAll(old(View()), message, nextCheckpoint)
      ensures Valid() && Repr() == old(Repr())
    {
      ghost var start := View();
      reorged := false;
      WholeBatch(start, message, nextCheckpoint);
      for i := 0 to |message|
        invariant Valid() && Repr() == old(Repr())
        invariant Continues(start, View(), message, i, nextCheckpoint, reorged)
      {
        AbsorbContinues(start, View(), message, i, nextCheckpoint, reorged);
        var failed, moved := AbsorbHeader(message[i], nextCheckpoint);
        reorged := reorged || moved;
        if failed.Some? {
          return failed, reorged;
        }
      }
      AbsorbEnds(start, View(), message, nextCheckpoint, reorged);
      error := None;
    }

    // ---------- Filter headers ----------

    /** Sync the compact filter headers, possibly encountering conflicts. */
    method SyncCFHeaders(peer: Peer, message: CFHeaders) returns (result: CFHeaderResult)
      requires Valid()
      modifies Repr()
      ensures (View(), result) == ChainState.SyncCFHeaders(old(View()), peer, message)
      ensures Valid() && Repr() == old(Repr())
    {
      VoteStaysBelowQuorum(View().request.agreement, peer, BatchOf(message));
      var batch := new CFHeaderBatch(message);
      var verdict := JudgeBatch(batch);
      match verdict
      case Wrong(error) => result := CFHeaderError(error);
      case Stale => result := Counted(AddedToQueue);
      case Counts =>
        var stop := lastFilterHeaderRequest.value.stopHash;
        result := CountBatch(peer, batch, stop);
    }

    /** Count a reply that passed, and commit it once enough peers agree. */
    method CountBatch(peer: Peer, batch: CFHeaderBatch, stop: Hash) returns (result: CFHeaderResult)
      requires Valid()
      modifies this`pendingBatch, agreements, headerChain, batch
      ensures var (agreement, outcome) := Vote(old(View()).request.agreement, peer, old(batch.View()));
              && result == Counted(outcome)
              && View() == AfterVote(old(View()), agreement, outcome, old(batch.inner), stop)
              && Valid()
    {
      var pending := pendingBatch;
      pendingBatch := None;
      if pending.Some? && pending.value.0 == peer {
        return Counted(AddedToQueue);
      }
      if pending.Some? && pending.value.1 != batch.View() {
        agreements.ResetAgreements();
        return Counted(Conflict);
      }
      agreements.GotAgreement();
      if agreements.EnoughAgree() {
        agreements.ResetAgreements();
        PushCFHeaderBatch(batch, stop);
        result := Counted(Extended);
      } else {
        pendingBatch := Some((if pending.Some? then pending.value.0 else peer, batch.View()));
        result := Counted(AddedToQueue);
      }
    }

    /** Hold a reply against the outstanding request. */
    method JudgeBatch(batch: CFHeaderBatch) returns (verdict: Verdict)
      requires Valid()
      ensures verdict == Judge(headerChain.View(), lastFilterHeaderRequest, batch.View())
    {
      if lastFilterHeaderRequest.None? {
        return Wrong(UnexpectedCFHeaderMessage);
      }
      var request := lastFilterHeaderRequest.value;
      if request.expectedPrev.Some? && request.expectedPrev.value != batch.prevFilterHeader {
        var known := headerChain.HasFilterHeader(batch.prevFilterHeader);
        return if known then Stale else Wrong(PrevHeaderMismatch);
      }
      if request.stopHash != batch.stopHash {
        return Wrong(UnrequestedStophash);
      }
      var height := headerChain.HeightOfHash(batch.stopHash);
      if height.None? {
        return Wrong(UnknownStophash);
      }
      if |batch.inner| == 0 {
        return Wrong(EmptyCFHeaders);
      }
      if height.value < |batch.inner| - 1 {
        return Wrong(HeaderChainIndexOverflow);
      }
      if height.value - (|batch.inner| - 1) != request.startHeight {
        return Wrong(StartHeightMisalignment);
      }
      verdict := Counts;
    }

    /** Start from the stop hash and commit backwards. */
    method PushCFHeaderBatch(batch: CFHeaderBatch, stopHash: Hash)
      requires Valid()
      modifies headerChain, batch
      ensures headerChain.View()
           == old(headerChain.View()).(headers := PushBatch(old(headerChain.headers), old(batch.inner), stopHash))
      ensures headerChain.Valid()
    {
      var commitments := batch.TakeInner();
      var curr := stopHash;
      ghost var goal := PushBatch(headerChain.headers, commitments, stopHash);
      assert commitments[..|commitments|] == commitments;
      for i := |commitments| downto 0
        invariant headerChain.Valid() && SameShape(old(headerChain.View()), headerChain.View())
        invariant PushBatch(headerChain.headers, commitments[..i], curr) == goal
      {
        StoredUnderTheirHashes(headerChain.View());
        assert commitments[..i + 1][..i] == commitments[..i];
        headerChain.SetCommitment(commitments[i], curr);
        var header := headerChain.HeaderAtHash(curr);
        if header.None? {
          break;
        }
        curr := header.value.prev;
      }
    }

    /** The next request: right above the topmost committed header. */
    method NextCFHeaderMessage() returns (message: FilterRequest)
      requires Valid()
      modifies this`lastFilterHeaderRequest
      ensures (View(), message) == ChainState.NextCFHeaderMessage(old(View()))
    {
      var start, prev := headerChain.UncommittedBelowTip();
      var stop := headerChain.StopHash(start + CF_HEADER_BATCH_SIZE);
      lastFilterHeaderRequest := Some(FilterHeaderRequest(start, stop, prev));
      message := FilterRequest(start, stop);
    }

    // ---------- Filters ----------

    /** Check a filter against its commitment, and queue its block if it matches a script. */
    method SyncFilter(message: CFilter) returns (result: FilterResult)
      requires Valid()
      modifies Repr()
      ensures (View(), result) == ChainState.SyncFilter(old(View()), message)
      ensures Valid() && Repr() == old(Repr())
    {
      var hash := message.blockHash;
      var synced := headerChain.FiltersSynced();
      if synced {
        return FilterOk(None);
      }
      if hash !in headerChain.headers || headerChain.headers[hash].commitment.None? {
        return FilterError(UnknownFilterHash);
      }
      if headerChain.headers[hash].commitment.value.filterHash != FilterHash(message.contents) {
        return FilterError(MisalignedFilterHash);
      }
      var decoded := TakeFilter(message);
      if !decoded {
        return FilterError(FilterDecoding);
      }
      if lastFilterRequest.None? {
        return FilterError(UnrequestedFilter);
      }
      result := FilterOk(None);
      if hash == lastFilterRequest.value.stopHash {
        synced := headerChain.FiltersSynced();
        if !synced {
          var next := NextFilterMessage();
          result := FilterOk(Some(next));
        }
      }
    }

    /** Queue the block if its filter matches, and mark the filter as checked. */
    method TakeFilter(message: CFilter) returns (decoded: bool)
      requires Valid() && CommitmentOf(View().tree, message.blockHash).Some?
      modifies headerChain, blockQueue, this`log
      ensures decoded <==> !Undecodable(old(View()), message)
      ensures View() == if decoded then CheckOff(old(View()), message) else old(View())
      ensures Valid()
    {
      var hash := message.blockHash;
      var node := headerChain.headers[hash];
      InLine(blockQueue.View(), hash);
      if !blockQueue.Contains(hash) && !node.checked {
        var matched := matcher(message.contents, hash, scripts);
        if matched.None? {
          return false;
        }
        if matched.value {
          blockQueue.AddBlock(hash);
        }
      }
      if !node.checked {
        var matched := matcher(message.contents, hash, scripts) == Some(true);
        log := log + [Checked(hash, message.contents, node.commitment.value, matched)];
      }
      headerChain.CheckFilter(hash);
      if node.checked {
        assert headerChain.headers == old(headerChain.headers);
      }
      decoded := true;
    }

    /** The next request: from the lowest header of the unchecked run below the tip. */
    method NextFilterMessage() returns (message: FilterRequest)
      requires Valid()
      modifies this`lastFilterRequest
      ensures (View(), message) == ChainState.NextFilterMessage(old(View()))
    {
      var start := headerChain.UncheckedBelowTip();
      var stop := headerChain.StopHash(start + FILTER_BATCH_SIZE);
      message := FilterRequest(start, stop);
      lastFilterRequest := Some(message);
    }

    // ---------- Blocks ----------

    method NextBlock(now: nat) returns (request: Option<Hash>)
      requires Valid()
      modifies Repr()
      ensures View() == old(View()).(queue := Pop(old(View()).queue, now).0)
      ensures request == Pop(old(View()).queue, now).1
      ensures Valid() && Repr() == old(Repr())
    {
      request := blockQueue.PopBlock(now);
    }

    /** Make sure we want this block, check the merkle root, and pass it on. */
    method CheckSendBlock(block: Block) returns (error: Option<BlockScanError>)
      requires Valid()
      modifies Repr()
      ensures (View(), error) == ChainState.CheckSendBlock(old(View()), block)
      ensures Valid() && Repr() == old(Repr())
    {
      var hash := block.header.BlockHash();
      if !blockQueue.Need(hash) {
        return None;
      }
      var height := headerChain.HeightOfHash(hash);
      if height.None? {
        return Some(NoBlockHash);
      }
      if !block.merkleRootMatches {
        return Some(InvalidMerkleRoot);
      }
      blockQueue.ReceiveBlock(hash);
      events := events + [BlockFound(hash, height.value)];
      log := log + [Delivered(hash)];
      error := None;
    }

    method PutScript(script: Script)
      requires Valid()
      modifies this`scripts
      ensures View() == old(View()).(scripts := old(scripts) + {script})
    {
      scripts := scripts + {script};
    }

    /** Tell the client that it is synced to the tip, with the last headers. */
    method SendSynced()
      requires Valid()
      modifies this`events
      ensures var t := View().tree;
              View() == old(View()).(events := old(events)
                          + [Synced(t.tip.height, t.tip.hash, Recent(t.headers, t.tip.hash, 10))])
    {
      var recent := headerChain.LastTen();
      events := events + [Synced(headerChain.activeTip.height, headerChain.activeTip.hash, recent)];
    }

    // ---------- Resets ----------

    /** Forget the filter headers asked for, because the chain moved. */
    method ClearCompactFilterQueue()
      requires Valid()
      modifies this`lastFilterHeaderRequest, this`pendingBatch, agreements
      ensures View() == ClearRequests(old(View())) && Valid()
    {
      agreements.ResetAgreements();
      lastFilterHeaderRequest := None;
      pendingBatch := None;
    }

    /** Make every filter due again, for a rescan. */
    method ClearFilters()
      requires Valid()
      modifies headerChain
      ensures View() == ChainState.ClearFilters(old(View())) && Valid()
    {
      headerChain.ResetAllFilters();
    }

    // ---------- Loading ----------

    /** Load the stored headers, with enough history for adjustments and reorganizations. */
    method LoadHeaders() returns (error: Option<LoadError>, ghost hi: nat)
      requires Valid()
      modifies Repr()
      ensures NothingAbove(db.table, hi)
      ensures (View(), error) == ChainLoad.LoadHeaders(old(View()), hi + 1)
      ensures Valid() && fresh(Repr() - old(Repr()))
    {
      var scanHeight := headerChain.activeTip.height;
      StartTree();
      error, hi := LoadAboveTip();
      if error.Some? {
        return;
      }
      log := log + [Assumed(AssumedHashes(headerChain.View(), scanHeight))];
      headerChain.AssumeCheckedTo(scanHeight);
    }

    /** Accept every stored row above the tip, lowest first. */
    method LoadAboveTip() returns (error: Option<LoadError>, ghost hi: nat)
      requires Valid()
      modifies headerChain, this`checkpoints
      ensures NothingAbove(db.table, hi)
      ensures Loaded(headerChain.View(), checkpoints, error) == RowsLoaded(old(View()), hi + 1)
      ensures Valid() && View() == old(View()).(tree := headerChain.View(), checkpoints := checkpoints)
    {
      ghost var base := View();
      var from := headerChain.activeTip.height + 1;
      var top := db.Top();
      hi := top;
      var loaded := db.Load(from, top + 1);
      if loaded.None? {
        return Some(DatabaseCorruption), hi;
      }
      var height := from;
      while height <= top
        invariant Valid() && LoadsOn(base, View(), height, top + 1)
        decreases top + 1 - height
      {
        if height in loaded.value {
          error := LoadRow(height, loaded.value[height]);
          if error.Some? {
            return error, hi;
          }
        }
        height := height + 1;
      }
      error := None;
    }

    /** Root the tree at the best stored header for adjustments and reorganizations. */
    method StartTree()
      requires Valid()
      modifies this`headerChain
      ensures View() == old(View()).(tree := BaseTree(old(View())))
      ensures Valid() && fresh(Repr() - old(Repr()))
    {
      var network, scanHeight := headerChain.network, headerChain.activeTip.height;
      var lastAdjustment, reorg := LastEpochStart(network, scanHeight), SaturatingSub(scanHeight, REORG_LOOKBACK);
      var lowest, highest := Min(lastAdjustment, reorg), Max(lastAdjustment, reorg);
      var header := db.HeaderAt(highest);
      if header.Some? {
        headerChain := new BlockTree.FromHeader(highest, header.value, network);
      }
      header := db.HeaderAt(lowest);
      if header.Some? {
        headerChain := new BlockTree.FromHeader(lowest, header.value, network);
      }
    }

    /** Accept one stored row, which must land at its height. */
    method LoadRow(height: nat, header: Header) returns (error: Option<LoadError>)
      requires Valid()
      modifies headerChain, this`checkpoints
      ensures Valid() && View() == old(View()).(tree := headerChain.View(), checkpoints := checkpoints)
      ensures Loaded(headerChain.View(), checkpoints, error)
           == RowLoaded(old(headerChain.View()), old(checkpoints), height, header)
    {
      error := None;
      var changes := headerChain.AcceptHeader(header);
      match changes
      case Accepted(connectedAt) =>
        if height != connectedAt.height {
          error := Some(HeadersDoNotLink);
        } else if checkpoints != [] && connectedAt.header.BlockHash() == checkpoints[0].hash {
          checkpoints := checkpoints[1..];
        }
      case Rejected(reason) =>
        if reason.UnknownPrevHash? {
          error := Some(CannotLocateHistory);
        }
      case _ =>
    }
  }

  /** `now` is where loading the rows below `k` has led, the tree and the checkpoints apart. */
  ghost predicate LoadsOn(base: ChainState.Chain, now: ChainState.Chain, k: nat, hi: nat) {
    && now == base.(tree := now.tree, checkpoints := now.checkpoints)
    && LoadRows(now.tree, now.checkpoints, base.store.table, k, hi)
       == LoadRows(base.tree, base.checkpoints, base.store.table, base.tree.tip.height + 1, hi)
  }

  // ---------- Batches, header by header ----------

  /** `now` is where absorbing the first `i` headers has led. */
  ghost predicate Continues(start: ChainState.Chain, now: ChainState.Chain, hs: seq<Header>, i: nat,
                            next: Option<Checkpoint>, reorged: bool)
    requires i <= |hs|
  {
    var rest := AbsorbAll(now, hs[i..], next);
    AbsorbAll(start, hs, next) == rest.(reorged := reorged || rest.reorged)
  }

  lemma AbsorbContinues(start: ChainState.Chain, now: ChainState.Chain, hs: seq<Header>, i: nat,
                        next: Option<Checkpoint>, reorged: bool)
    requires i < |hs| && Continues(start, now, hs, i, next, reorged)
    ensures var a := AbsorbOne(now, hs[i], next);
            if a.error.Some? then AbsorbAll(start, hs, next) == a.(reorged := reorged || a.reorged)
            else Continues(start, a.chain, hs, i + 1, next, reorged || a.reorged)
  {
    assert hs[i..][1..] == hs[i + 1..];
  }

  lemma WholeBatch(start: ChainState.Chain, hs: seq<Header>, next: Option<Checkpoint>)
    ensures Continues(start, start, hs, 0, next, false)
  {
    assert hs[0..] == hs;
  }

  lemma AbsorbEnds(start: ChainState.Chain, now: ChainState.Chain, hs: seq<Header>,
                   next: Option<Checkpoint>, reorged: bool)
    requires Continues(start, now, hs, |hs|, next, reorged)
    ensures AbsorbAll(start, hs, next) == Absorbed(now, None, reorged)
  {
  }
}
