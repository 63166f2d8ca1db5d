/** What a reply of filter headers, a filter and a block do to the chain, told from the request, the
    scripts of the client, the queue and the stored headers. */
module Findings {
  import opened Hashes
  import opened Filters
  import opened Graph
  import opened GraphFilters
  import opened FilterHeaders
  import opened FilterHeaderChain
  import opened ChainState
  import BlockQueues

  // ---------- Filter headers ----------

  /** The reply stops where the request does, stands on the filter header that is expected, if one
      is, and has one filter hash for each height from the start of the request. */
  ghost predicate Answers(t: Tree, r: FilterHeaderRequest, message: CFHeaders) {
    && (r.expectedPrev.Some? ==> r.expectedPrev.value == message.previousFilterHeader)
    && message.stopHash == r.stopHash && r.stopHash in t.headers && message.filterHashes != []
    && t.headers[r.stopHash].height + 1 == r.startHeight + |message.filterHashes|
  }

  /** The reply stands on another filter header than expected, to which an active header commits. */
  ghost predicate AnswersEarlier(t: Tree, r: FilterHeaderRequest, message: CFHeaders) {
    && r.expectedPrev.Some? && r.expectedPrev.value != message.previousFilterHeader
    && exists x :: Active(t, x) && t.headers[x].commitment.Some?
                   && t.headers[x].commitment.value.header == message.previousFilterHeader
  }

  /** A reply is counted as a vote if and only if it answers the outstanding request; one that
      answers an earlier request is passed over; any other is an error. Only a vote changes
      anything. */
  lemma ReplyCountsIff(c: Chain, peer: Peer, message: CFHeaders)
    requires BelowQuorum(c.request.agreement)
    ensures var ((c', result), r) := (SyncCFHeaders(c, peer, message), c.request.lastFilterHeaderRequest);
            if r.Some? && Answers(c.tree, r.value, message)
            then var (agreement, outcome) := Vote(c.request.agreement, peer, BatchOf(message));
                 && result == Counted(outcome)
                 && c' == c.(tree := c'.tree, request := c.request.(agreement := agreement))
                 && c'.tree == if outcome == Extended then Commit(c.tree, BatchOf(message)) else c.tree
            else && c' == c
                 && result == if r.Some? && AnswersEarlier(c.tree, r.value, message) then Counted(AddedToQueue)
                              else CFHeaderError(ReplyError(c.tree, r, message))
  {
    var r := c.request.lastFilterHeaderRequest;
    ChainedLength(message.previousFilterHeader, message.filterHashes);
    if r.Some? && CommittedHeader(c.tree, message.previousFilterHeader) {
      var x :| Active(c.tree, x) && GraphFilters.CommitsTo(c.tree, x, message.previousFilterHeader);
    }
  }

  /** Which error a reply is that neither answers the request nor an earlier one. */
  ghost function ReplyError(t: Tree, r: Option<FilterHeaderRequest>, message: CFHeaders): CFHeaderSyncError {
    if r.None? then UnexpectedCFHeaderMessage
    else if r.value.expectedPrev.Some? && r.value.expectedPrev.value != message.previousFilterHeader then PrevHeaderMismatch
    else if message.stopHash != r.value.stopHash then UnrequestedStophash
    else if message.stopHash !in t.headers then UnknownStophash
    else if message.filterHashes == [] then EmptyCFHeaders
    else if t.headers[message.stopHash].height + 1 < |message.filterHashes| then HeaderChainIndexOverflow
    else StartHeightMisalignment
  }

  // ---------- Filters ----------

  /** Some active header is not checked. */
  ghost predicate ScanIsDue(t: Tree) {
    exists y :: Active(t, y) && !t.headers[y].checked
  }

  /** The header commits to the hash of the filter. */
  ghost predicate CommitsToFilter(t: Tree, f: CFilter) {
    && f.blockHash in t.headers && t.headers[f.blockHash].commitment.Some?
    && t.headers[f.blockHash].commitment.value.filterHash == FilterHash(f.contents)
  }

  /** The filter has to be read against the scripts, which it cannot be. */
  ghost predicate Unreadable(c: Chain, f: CFilter)
    requires f.blockHash in c.tree.headers
  {
    && !c.tree.headers[f.blockHash].checked && f.blockHash !in c.queue.queue && c.queue.want != Some(f.blockHash)
    && c.matcher(f.contents, f.blockHash, c.scripts) == None
  }

  /** A filter is ignored when no scan is due, and refused for a header that is not stored or not
      committed, for another hash than the committed one, or if it has to be read and cannot be. */
  lemma FilterRefusedIff(c: Chain, f: CFilter)
    ensures var (c', result) := SyncFilter(c, f);
            var x := f.blockHash;
            && (!ScanIsDue(c.tree) ==> c' == c && result == FilterOk(None))
            && (ScanIsDue(c.tree) && !(x in c.tree.headers && c.tree.headers[x].commitment.Some?)
                ==> c' == c && result == FilterError(UnknownFilterHash))
            && (ScanIsDue(c.tree) && x in c.tree.headers && c.tree.headers[x].commitment.Some? && !CommitsToFilter(c.tree, f)
                ==> c' == c && result == FilterError(MisalignedFilterHash))
            && (ScanIsDue(c.tree) && CommitsToFilter(c.tree, f) && Unreadable(c, f)
                ==> c' == c && result == FilterError(FilterDecoding))
  {
    assert ScanIsDue(c.tree) <==> !AllChecked(c.tree);
  }

  /** Any other filter flags its header, and nothing else of the tree. The header's block is then in
      the queue if and only if it was before, or the header was not checked and the filter matches
      the scripts that the client has now; no other block comes or goes. */
  lemma FilterQueuesIff(c: Chain, f: CFilter)
    requires ScanIsDue(c.tree) && CommitsToFilter(c.tree, f) && !Unreadable(c, f)
    ensures var (c', x, node) := (SyncFilter(c, f).0, f.blockHash, c.tree.headers[f.blockHash]);
            var matches := c.matcher(f.contents, x, c.scripts) == Some(true);
            && c'.tree == c.tree.(headers := c.tree.headers[x := node.(checked := true)])
            && (forall y :: InQueue(c', y) <==> InQueue(c, y) || (y == x && !node.checked && matches))
            && c'.log == (if node.checked then c.log else c.log + [Checked(x, f.contents, node.commitment.value, matches)])
            && c'.events == c.events
  {
    var c1, x := CheckOff(c, f), f.blockHash;
    assert SyncFilter(c, f).0 == c1 || SyncFilter(c, f).0 == NextFilterMessage(c1).0;
    if c.tree.headers[x].checked {
      assert c.tree.headers[x := c.tree.headers[x].(checked := true)] == c.tree.headers;
    }
  }

  /** The answer to such a filter: an error if none was requested; otherwise a request if the filter
      is the last one requested and the scan is not done, and nothing if not. */
  lemma FilterAnswerIff(c: Chain, f: CFilter)
    requires ScanIsDue(c.tree) && CommitsToFilter(c.tree, f) && !Unreadable(c, f)
    ensures var (c', result) := SyncFilter(c, f);
            var r := c.request.lastFilterRequest;
            && (r == None <==> result == FilterError(UnrequestedFilter))
            && (r.Some? && f.blockHash == r.value.stopHash && ScanIsDue(c'.tree)
                <==> result.FilterOk? && result.next.Some?)
            && (result.FilterOk? && result.next.Some? ==> c'.request == c.request.(lastFilterRequest := result.next))
            && (!(result.FilterOk? && result.next.Some?) ==> c'.request == c.request)
  {
    var c1 := CheckOff(c, f);
    assert ScanIsDue(c1.tree) <==> !AllChecked(c1.tree);
    assert ScanIsDue(SyncFilter(c, f).0.tree) <==> !AllChecked(SyncFilter(c, f).0.tree);
  }

  // ---------- Blocks ----------

  /** The block is the wanted one, its header is stored, and it has the transactions that the header
      commits to. */
  ghost predicate Welcome(c: Chain, b: Block) {
    c.queue.want == Some(b.header.BlockHash()) && b.header.BlockHash() in c.tree.headers && b.merkleRootMatches
  }

  /** A block leaves the queue and is announced, once and with its height, if and only if it is the
      wanted one, its header is stored and its merkle root matches. Otherwise nothing changes, and it
      is an error unless the block is not wanted. */
  lemma BlockAnnouncedIff(c: Chain, b: Block)
    ensures var (c', error) := CheckSendBlock(c, b);
            var x := b.header.BlockHash();
            && (Welcome(c, b) ==>
                  error == None && c'.events == c.events + [BlockFound(x, c.tree.headers[x].height)]
                  && BlockQueues.Line(c'.queue) == BlockQueues.Line(c.queue)[1..] && BlockQueues.Line(c.queue)[0] == x
                  && c'.log == c.log + [Delivered(x)] && c' == c.(queue := c'.queue, events := c'.events, log := c'.log))
            && (!Welcome(c, b) ==> c' == c)
            && (error == None <==> Welcome(c, b) || c.queue.want != Some(x))
            && (error == Some(NoBlockHash) <==> c.queue.want == Some(x) && x !in c.tree.headers)
            && (error == Some(InvalidMerkleRoot)
                <==> c.queue.want == Some(x) && x in c.tree.headers && !b.merkleRootMatches)
  {
    BlockQueues.ReceiveRemovesWantedHead(c.queue, b.header.BlockHash());
  }
}
