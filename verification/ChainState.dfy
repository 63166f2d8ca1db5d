/** The chain as a value: what the syncing operations of the client compute. */
module ChainState {
  import opened Commons
  import opened Hashes
  import opened Filters
  import opened Graph
  import opened GraphFilters
  import opened FilterHeaders
  import HeaderStores
  import BlockQueues

  const REORG_LOOKBACK: nat := 7
  const CF_HEADER_BATCH_SIZE: nat := 1_999
  const FILTER_BATCH_SIZE: nat := 999

  datatype Script = Script(id: nat)

  datatype Checkpoint = Checkpoint(height: nat, hash: Hash)

  datatype FilterRequest = FilterRequest(startHeight: nat, stopHash: Hash)

  datatype FilterHeaderRequest = FilterHeaderRequest(
    startHeight: nat, stopHash: Hash, expectedPrev: Option<FilterHeader>)

  datatype RequestState = RequestState(
    lastFilterRequest: Option<FilterRequest>,
    lastFilterHeaderRequest: Option<FilterHeaderRequest>,
    agreement: Agreement)

  /** A `cfilter` message: the contents of the filter of one block. */
  datatype CFilter = CFilter(contents: nat, blockHash: Hash)

  /** A full block, of which only the header and the merkle check matter here. */
  datatype Block = Block(header: Header, merkleRootMatches: bool)

  /** Whether a filter matches any of the scripts for a block; nothing if it does not decode. */
  type Matcher = (nat, Hash, set<Script>) -> Option<bool>

  /** What the client is told. */
  datatype Event =
    | BlockFound(hash: Hash, height: nat)
    | BlocksDisconnected(blocks: seq<Indexed>)
    | Synced(height: nat, hash: Hash, recent: map<nat, Header>)

  /** A history kept for the proofs: which filters were checked and with what outcome, which
      headers were assumed checked, which blocks were disconnected and which delivered. */
  datatype Entry =
    | Assumed(assumed: set<Hash>)
    | Checked(hash: Hash, contents: nat, commitment: Commitment, matched: bool)
    | Disconnected(gone: seq<Hash>)
    | Delivered(block: Hash)

  datatype Chain = Chain(
    tree: Tree,
    request: RequestState,
    checkpoints: seq<Checkpoint>,
    store: HeaderStores.Store,
    heights: map<Peer, nat>,
    scripts: set<Script>,
    matcher: Matcher,
    queue: BlockQueues.Queue,
    events: seq<Event>,
    log: seq<Entry>)

  // ---------- Syncing headers ----------

  datatype HeaderSyncError =
    EmptyMessage | HeadersNotConnected | InvalidHeaderWork | InvalidBits | InvalidCheckpoint | FloatingHeaders

  ghost predicate IsSynced(c: Chain) {
    c.heights != map[] && forall p | p in c.heights :: c.heights[p] <= c.tree.tip.height
  }

  predicate Connected(hs: seq<Header>) {
    forall i | 0 <= i < |hs| - 1 :: hs[i + 1].prev == hs[i].BlockHash()
  }

  predicate IndividuallyValidPow(net: Network, hs: seq<Header>) {
    forall i | 0 <= i < |hs| :: net.validPow(hs[i])
  }

  predicate BitsAdhere(net: Network, hs: seq<Header>) {
    net.allowMinDifficulty || forall i | 0 <= i < |hs| - 1 :: net.transitionOk(hs[i].bits, hs[i + 1].bits)
  }

  function SanityCheck(net: Network, hs: seq<Header>): Option<HeaderSyncError> {
    if !Connected(hs) then Some(HeadersNotConnected)
    else if !IndividuallyValidPow(net, hs) then Some(InvalidHeaderWork)
    else if !BitsAdhere(net, hs) then Some(InvalidBits)
    else None
  }

  function BlockHashes(list: seq<Indexed>): (hashes: seq<Hash>)
    ensures |hashes| == |list|
    ensures forall i | 0 <= i < |list| :: hashes[i] == list[i].header.BlockHash()
  {
    if list == [] then [] else [list[0].header.BlockHash()] + BlockHashes(list[1..])
  }

  datatype Absorbed = Absorbed(chain: Chain, error: Option<HeaderSyncError>, reorged: bool)

  function PopFront(checkpoints: seq<Checkpoint>): seq<Checkpoint> {
    if checkpoints == [] then [] else checkpoints[1..]
  }

  /** A branch lost: its queued blocks are dropped, and the store and the client are told. */
  ghost function Displacing(c: Chain, accepted: seq<Indexed>, disconnected: seq<Indexed>): Chain {
    c.(queue := BlockQueues.Remove(c.queue, BlockHashes(disconnected)),
       store := HeaderStores.Stage(c.store, HeaderStores.Reorganized(accepted, disconnected)),
       events := c.events + [BlocksDisconnected(Reversed(disconnected))],
       log := c.log + [Disconnected(BlockHashes(disconnected))])
  }

  /** One header of a batch; `next` is the checkpoint that was due when the batch arrived. */
  ghost function AbsorbOne(c: Chain, h: Header, next: Option<Checkpoint>): Absorbed {
    var (tree, changes) := Accept(c.tree, h);
    var c1 := c.(tree := tree);
    match changes
    case Accepted(at) =>
      var c2 := c1.(store := HeaderStores.Stage(c.store, HeaderStores.Connected(at)));
      if next.None? || at.height != next.value.height then Absorbed(c2, None, false)
      else if at.header.BlockHash() == next.value.hash
      then Absorbed(c2.(checkpoints := PopFront(c.checkpoints)), None, false)
      else Absorbed(c2, Some(InvalidCheckpoint), false)
    case Duplicate => Absorbed(c1, None, false)
    case ExtendedFork(_) => Absorbed(c1, None, false)
    case Reorganization(accepted, disconnected) =>
      Absorbed(Displacing(c1, accepted, disconnected), None, true)
    case Rejected(reason) =>
      Absorbed(c1, Some(if reason.InvalidPow? then InvalidBits else FloatingHeaders), false)
  }

  ghost function AbsorbAll(c: Chain, hs: seq<Header>, next: Option<Checkpoint>): Absorbed
    decreases |hs|
  {
    if hs == [] then Absorbed(c, None, false)
    else
      var a := AbsorbOne(c, hs[0], next);
      if a.error.Some? then a
      else
        var rest := AbsorbAll(a.chain, hs[1..], next);
        rest.(reorged := a.reorged || rest.reorged)
  }

  ghost function ClearRequests(c: Chain): Chain {
    c.(request := c.request.(lastFilterHeaderRequest := None,
                             agreement := c.request.agreement.(pending := None, current := 0)))
  }

  ghost function NextCheckpoint(c: Chain): Option<Checkpoint> {
    if c.checkpoints == [] then None else Some(c.checkpoints[0])
  }

  ghost function SyncChain(c: Chain, hs: seq<Header>, fault: HeaderStores.Fault): (Chain, Option<HeaderSyncError>) {
    if hs == [] then (c, Some(EmptyMessage))
    else
      var last := hs[|hs| - 1].BlockHash();
      if last in c.tree.headers || last == c.tree.tip.hash then (c, None)
      else if SanityCheck(c.tree.net, hs).Some? then (c, SanityCheck(c.tree.net, hs))
      else
        var a := AbsorbAll(c, hs, NextCheckpoint(c));
        if a.error.Some? then (a.chain, a.error)
        else
          var written := a.chain.(store := HeaderStores.Write(a.chain.store, fault).0);
          (if a.reorged then ClearRequests(written) else written, None)
  }

  // ---------- Syncing filter headers ----------

  ghost function NextCFHeaderMessage(c: Chain): (Chain, FilterRequest) {
    var (start, prev) := UncommittedRun(c.tree.headers, c.tree.tip.hash, c.tree.tip.height);
    var stop := StopFor(c.tree, start + CF_HEADER_BATCH_SIZE);
    (c.(request := c.request.(lastFilterHeaderRequest := Some(FilterHeaderRequest(start, stop, prev)))),
     FilterRequest(start, stop))
  }

  datatype CFHeaderSyncError =
    | UnexpectedCFHeaderMessage | PrevHeaderMismatch | UnrequestedStophash | UnknownStophash
    | EmptyCFHeaders | HeaderChainIndexOverflow | StartHeightMisalignment

  /** What a reply is held against before it is counted. */
  datatype Verdict = Counts | Stale | Wrong(error: CFHeaderSyncError)

  ghost function Judge(t: Tree, request: Option<FilterHeaderRequest>, batch: Batch): Verdict {
    if request.None? then Wrong(UnexpectedCFHeaderMessage)
    else
      var r := request.value;
      if r.expectedPrev.Some? && r.expectedPrev.value != batch.prevFilterHeader then
        if CommittedHeader(t, batch.prevFilterHeader) then Stale else Wrong(PrevHeaderMismatch)
      else if r.stopHash != batch.stopHash then Wrong(UnrequestedStophash)
      else if batch.stopHash !in t.headers then Wrong(UnknownStophash)
      else if batch.inner == [] then Wrong(EmptyCFHeaders)
      else if t.headers[batch.stopHash].height < |batch.inner| - 1 then Wrong(HeaderChainIndexOverflow)
      else if t.headers[batch.stopHash].height - (|batch.inner| - 1) != r.startHeight then Wrong(StartHeightMisalignment)
      else Counts
  }

  /** Commit backwards from `x`, last commitment first. */
  ghost function PushBatch(hs: map<Hash, BlockNode>, commitments: seq<Commitment>, x: Hash): map<Hash, BlockNode>
    decreases |commitments|
  {
    if commitments == [] || !x.Of? || x !in hs then hs
    else
      var last := |commitments| - 1;
      PushBatch(SetCommitment(hs, commitments[last], x), commitments[..last], x.header.prev)
  }

  datatype CFHeaderResult = Counted(outcome: Outcome) | CFHeaderError(error: CFHeaderSyncError)

  /** The vote on a batch, and what it commits. */
  ghost function AfterVote(c: Chain, agreement: Agreement, outcome: Outcome, commitments: seq<Commitment>, stop: Hash): Chain {
    var hs := if outcome == Extended then PushBatch(c.tree.headers, commitments, stop) else c.tree.headers;
    c.(tree := c.tree.(headers := hs), request := c.request.(agreement := agreement))
  }

  ghost function SyncCFHeaders(c: Chain, peer: Peer, message: CFHeaders): (Chain, CFHeaderResult)
    requires BelowQuorum(c.request.agreement)
  {
    var batch := BatchOf(message);
    match Judge(c.tree, c.request.lastFilterHeaderRequest, batch)
    case Wrong(error) => (c, CFHeaderError(error))
    case Stale => (c, Counted(AddedToQueue))
    case Counts =>
      var (agreement, outcome) := Vote(c.request.agreement, peer, batch);
      (AfterVote(c, agreement, outcome, batch.inner, batch.stopHash), Counted(outcome))
  }

  // ---------- Syncing filters ----------

  ghost function NextFilterMessage(c: Chain): (Chain, FilterRequest) {
    var start := UncheckedRun(c.tree.headers, c.tree.tip.hash, c.tree.tip.height);
    var request := FilterRequest(start, StopFor(c.tree, start + FILTER_BATCH_SIZE));
    (c.(request := c.request.(lastFilterRequest := Some(request))), request)
  }

  datatype CFilterSyncError = MisalignedFilterHash | UnknownFilterHash | UnrequestedFilter | FilterDecoding

  datatype FilterResult = FilterOk(next: Option<FilterRequest>) | FilterError(error: CFilterSyncError)

  ghost function CommitmentOf(t: Tree, x: Hash): Option<Commitment> {
    if x in t.headers then t.headers[x].commitment else None
  }

  /** Mark the filter of a stored header as checked, queueing its block if the filter matches. */
  ghost function CheckOff(c: Chain, f: CFilter): Chain
    requires f.blockHash in c.tree.headers && c.tree.headers[f.blockHash].commitment.Some?
  {
    var x, node := f.blockHash, c.tree.headers[f.blockHash];
    var matched := c.matcher(f.contents, x, c.scripts) == Some(true);
    if node.checked then c
    else c.(tree := c.tree.(headers := SetChecked(c.tree.headers, x, true)),
            queue := if matched then BlockQueues.Add(c.queue, x) else c.queue,
            log := c.log + [Checked(x, f.contents, node.commitment.value, matched)])
  }

  ghost predicate InQueue(c: Chain, x: Hash) {
    x in c.queue.queue || c.queue.want == Some(x)
  }

  /** A filter that has to be read, and cannot be. */
  ghost predicate Undecodable(c: Chain, f: CFilter)
    requires f.blockHash in c.tree.headers
  {
    && !InQueue(c, f.blockHash) && !c.tree.headers[f.blockHash].checked
    && c.matcher(f.contents, f.blockHash, c.scripts).None?
  }

  ghost function SyncFilter(c: Chain, f: CFilter): (Chain, FilterResult) {
    var x := f.blockHash;
    if AllChecked(c.tree) then (c, FilterOk(None))
    else if CommitmentOf(c.tree, x).None? then (c, FilterError(UnknownFilterHash))
    else if CommitmentOf(c.tree, x).value.filterHash != FilterHash(f.contents) then (c, FilterError(MisalignedFilterHash))
    else if Undecodable(c, f) then (c, FilterError(FilterDecoding))
    else
      var c1 := CheckOff(c, f);
      if c.request.lastFilterRequest.None? then (c1, FilterError(UnrequestedFilter))
      else if x == c.request.lastFilterRequest.value.stopHash && !AllChecked(c1.tree) then
        var (c2, next) := NextFilterMessage(c1);
        (c2, FilterOk(Some(next)))
      else (c1, FilterOk(None))
  }

  // ---------- Blocks ----------

  datatype BlockScanError = NoBlockHash | InvalidMerkleRoot

  ghost function CheckSendBlock(c: Chain, b: Block): (Chain, Option<BlockScanError>) {
    var x := b.header.BlockHash();
    if c.queue.want != Some(x) then (c, None)
    else if x !in c.tree.headers then (c, Some(NoBlockHash))
    else if !b.merkleRootMatches then (c, Some(InvalidMerkleRoot))
    else
      (c.(queue := BlockQueues.Receive(c.queue, x),
          events := c.events + [BlockFound(x, c.tree.headers[x].height)],
          log := c.log + [Delivered(x)]), None)
  }

  ghost function ClearFilters(c: Chain): Chain {
    c.(tree := ResetFilters(c.tree))
  }
}
