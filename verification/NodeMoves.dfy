/** Single moves of a client, for building runs step by step. */
module NodeMoves {
  import opened Hashes
  import opened Graph
  import opened GraphFilters
  import opened FilterHeaders
  import opened FilterHeaderChain
  import opened FilterProgress
  import opened ChainState
  import opened NodeState
  import opened NodeRuns
  import HeaderStores
  import BlockQueues
  import ChainLoad

  // ---------- Reaching states ----------

  /** All messages come from one peer. */
  ghost predicate OnePeer(inputs: seq<Input>) {
    forall i | 0 <= i < |inputs| :: FromOne(inputs[i])
  }

  predicate FromOne(input: Input) {
    (input.HeadersMessage? || input.FilterHeadersMessage? || input.FilterMessage? || input.BlockMessage?
     || input.Inventory? || input.VersionMessage?) ==> input.peer == 0
  }

  /** Reached by a run in which one peer sends everything. */
  ghost predicate Reached(start: Client, n: Client) {
    Books(start) && exists inputs :: OnePeer(inputs) && n == RunAll(start, inputs)
  }

  lemma ReachedStart(start: Client)
    requires Books(start)
    ensures Reached(start, start)
  {
    assert OnePeer([]) && start == RunAll(start, []);
  }

  lemma {:induction false} RunOneMore(n: Client, inputs: seq<Input>, input: Input)
    requires Books(n)
    ensures RunAll(n, inputs + [input]) == Step(RunAll(n, inputs), input).0
    decreases |inputs|
  {
    if inputs == [] {
      assert (inputs + [input])[1..] == [];
    } else {
      assert (inputs + [input])[1..] == inputs[1..] + [input];
      StepKeepsBooks(n, inputs[0]);
      RunOneMore(Step(n, inputs[0]).0, inputs[1..], input);
    }
  }

  lemma ReachedStep(start: Client, n: Client, input: Input)
    requires Reached(start, n) && FromOne(input)
    ensures Books(n) && Reached(start, Step(n, input).0)
  {
    var inputs :| OnePeer(inputs) && n == RunAll(start, inputs);
    assert OnePeer(inputs + [input]);
    RunOneMore(start, inputs, input);
  }

  /** A client that was started on an empty table, at a checkpoint of which it has no header,
      and that asks a number of peers to agree. */
  ghost function ClientOf(net: Network, matcher: Matcher, required: U8): Client {
    Client(Behind, Chain(
      FromTip(net, Tip(Anchor(0), 0, None)), RequestState(None, None, Agreement(None, 0, required)), [],
      HeaderStores.Store(map[], map[], {}), map[], {}, matcher, BlockQueues.Queue([], None, 0), [], [Assumed({})]))
  }

  /** One that is content with one. */
  ghost function NewClient(net: Network, matcher: Matcher): Client {
    ClientOf(net, matcher, 1)
  }

  lemma ClientStarts(net: Network, matcher: Matcher, required: U8)
    ensures Started(ClientOf(net, matcher, required)) && Books(ClientOf(net, matcher, required))
  {
    var n := ClientOf(net, matcher, required);
    var c := n.chain.(log := []);
    assert Fresh(c);
    assert ChainLoad.BaseTree(c) == c.tree;
    assert ChainLoad.LoadRows(c.tree, [], map[], 1, 0) == ChainLoad.Loaded(c.tree, [], None);
    assert ChainLoad.RowsLoaded(c, 0) == ChainLoad.Loaded(c.tree, [], None) by {
      assert c.(tree := c.tree) == c;
    }
    assert AssumeChecked(c.tree, 0).headers == map[];
    assert AssumeChecked(c.tree, 0) == c.tree;
    assert ChainLoad.AssumedHashes(c.tree, 0) == {};
    assert c.log + [Assumed({})] == n.chain.log;
    assert ChainLoad.LoadOnto(c, c.tree, 0) == (n.chain, None);
    assert ChainLoad.LoadHeaders(c, 0) == (n.chain, None);
    StartedBooks(n);
  }

  // ---------- Headers, while a peer is known to be ahead ----------

  ghost predicate Behindhand(n: Client, height: nat) {
    n.chain.checkpoints == [] && 0 in n.chain.heights && height < n.chain.heights[0]
  }

  /** The header is valid and new. */
  ghost predicate Fits(n: Client, h: Header) {
    && n.chain.tree.net.validPow(h)
    && h.BlockHash() !in n.chain.tree.headers && h.BlockHash() != n.chain.tree.tip.hash
  }

  lemma OneHeader(n: Client, h: Header, fault: HeaderStores.Fault)
    requires n.chain.checkpoints == [] && Fits(n, h) && !Accept(n.chain.tree, h).1.Rejected?
    ensures var a := AbsorbOne(n.chain, h, None);
            var written := a.chain.(store := HeaderStores.Write(a.chain.store, fault).0);
            SyncChain(n.chain, [h], fault) == (if a.reorged then ClearRequests(written) else written, None)
  {
    var a := AbsorbOne(n.chain, h, None);
    assert [h][1..] == [] && [h][0] == h && [h][|[h]| - 1] == h;
    assert a.error == None;
    assert AbsorbAll(a.chain, [], None) == Absorbed(a.chain, None, false);
    assert AbsorbAll(n.chain, [h], None) == a;
    assert NextCheckpoint(n.chain) == None && SanityCheck(n.chain.tree.net, [h]) == None;
  }

  lemma NotSynced(c: Chain)
    requires 0 in c.heights && c.tree.tip.height < c.heights[0]
    ensures NextStatefulMessage(c).0 == c
  {
  }

  /** The store after one header and a write. */
  ghost function StoreAfter(n: Client, h: Header, fault: HeaderStores.Fault): HeaderStores.Store {
    HeaderStores.Write(AbsorbOne(n.chain, h, None).chain.store, fault).0
  }

  /** A header that does not reorganize changes the tree and the table, and nothing else. */
  lemma TakeHeaderWith(start: Client, n: Client, h: Header, fault: HeaderStores.Fault) returns (n': Client)
    requires Reached(start, n) && Fits(n, h) && Behindhand(n, Accept(n.chain.tree, h).0.tip.height)
    requires Accept(n.chain.tree, h).1.Accepted? || Accept(n.chain.tree, h).1.ExtendedFork?
    ensures Reached(start, n') && Books(n) && n' == Step(n, HeadersMessage(0, [h], fault)).0
    ensures n' == n.(chain := n.chain.(tree := Accept(n.chain.tree, h).0, store := StoreAfter(n, h, fault)))
  {
    OneHeader(n, h, fault);
    ReachedStep(start, n, HeadersMessage(0, [h], fault));
    n' := Step(n, HeadersMessage(0, [h], fault)).0;
    NotSynced(SyncChain(n.chain, [h], fault).0);
  }

  lemma TakeHeader(start: Client, n: Client, h: Header) returns (n': Client)
    requires Reached(start, n) && Fits(n, h) && Behindhand(n, Accept(n.chain.tree, h).0.tip.height)
    requires Accept(n.chain.tree, h).1.Accepted? || Accept(n.chain.tree, h).1.ExtendedFork?
    ensures Reached(start, n')
    ensures n' == n.(chain := n.chain.(tree := Accept(n.chain.tree, h).0, store := n'.chain.store))
  {
    n' := TakeHeaderWith(start, n, h, HeaderStores.NoFault);
  }

  /** One that reorganizes also clears the requests and drops the disconnected blocks. */
  lemma TakeReorganization(start: Client, n: Client, h: Header) returns (n': Client)
    requires Reached(start, n) && Fits(n, h) && Behindhand(n, Accept(n.chain.tree, h).0.tip.height)
    requires Accept(n.chain.tree, h).1.Reorganization?
    ensures Reached(start, n')
    ensures var gone := BlockHashes(Accept(n.chain.tree, h).1.disconnected);
            && n' == n.(chain := n'.chain)
            && n'.chain == ClearRequests(n.chain).(
                 tree := Accept(n.chain.tree, h).0, store := StoreAfter(n, h, HeaderStores.NoFault), events := n'.chain.events,
                 queue := BlockQueues.Remove(n.chain.queue, gone), log := n.chain.log + [Disconnected(gone)])
  {
    OneHeader(n, h, HeaderStores.NoFault);
    ReachedStep(start, n, HeadersMessage(0, [h], HeaderStores.NoFault));
    n' := Step(n, HeadersMessage(0, [h], HeaderStores.NoFault)).0;
    NotSynced(SyncChain(n.chain, [h], HeaderStores.NoFault).0);
  }

  // ---------- Peers, requests and replies ----------

  lemma HearHeight(start: Client, n: Client, height: nat) returns (n': Client)
    requires Reached(start, n)
    ensures Reached(start, n') && n' == n.(chain := n.chain.(heights := n.chain.heights[0 := height]))
  {
    var input := VersionMessage(0, height, Version(WTXID_VERSION, true, true));
    ReachedStep(start, n, input);
    n' := Step(n, input).0;
  }

  /** An empty headers message makes a synced client ask for what is next. */
  lemma AskNext(start: Client, n: Client) returns (n': Client)
    requires Reached(start, n) && IsSynced(n.chain)
    ensures Reached(start, n') && n' == n.(chain := NextStatefulMessage(n.chain).0)
  {
    var input := HeadersMessage(0, [], HeaderStores.NoFault);
    ReachedStep(start, n, input);
    n' := Step(n, input).0;
  }

  ghost predicate OneAgrees(n: Client) {
    n.chain.request.agreement == Agreement(None, 0, 1)
  }

  /** A reply that passes the checks is committed at once, and the client goes on to ask. */
  lemma TakeReply(start: Client, n: Client, message: CFHeaders) returns (n': Client)
    requires Reached(start, n) && OneAgrees(n)
    requires Judge(n.chain.tree, n.chain.request.lastFilterHeaderRequest, BatchOf(message)) == Counts
    ensures Reached(start, n')
    ensures n' == n.(chain := NextStatefulMessage(n.chain.(tree := Commit(n.chain.tree, BatchOf(message)))).0)
  {
    var input := FilterHeadersMessage(0, message);
    ReachedStep(start, n, input);
    n' := Step(n, input).0;
    assert SyncCFHeaders(n.chain, 0, message)
        == (n.chain.(tree := Commit(n.chain.tree, BatchOf(message))), Counted(Extended));
  }

  /** A reply that is only counted changes the count. */
  lemma TakeVote(start: Client, n: Client, message: CFHeaders) returns (n': Client)
    requires Reached(start, n) && BelowQuorum(n.chain.request.agreement)
    requires Judge(n.chain.tree, n.chain.request.lastFilterHeaderRequest, BatchOf(message)) == Counts
    requires Vote(n.chain.request.agreement, 0, BatchOf(message)).1 == AddedToQueue
    ensures Reached(start, n')
    ensures n' == n.(chain := n.chain.(request := n.chain.request.(
                   agreement := Vote(n.chain.request.agreement, 0, BatchOf(message)).0)))
  {
    var input := FilterHeadersMessage(0, message);
    ReachedStep(start, n, input);
    n' := Step(n, input).0;
    var after := n.chain.(request := n.chain.request.(agreement := Vote(n.chain.request.agreement, 0, BatchOf(message)).0));
    assert SyncCFHeaders(n.chain, 0, message) == (after, Counted(AddedToQueue));
  }

  lemma FilterTaken(c: Chain, f: CFilter)
    requires !AllChecked(c.tree) && Good(c, f) && c.request.lastFilterRequest.Some?
    ensures var c' := SyncFilter(c, f).0;
            && c' == CheckOff(c, f).(request := c'.request)
            && c'.request == c.request.(lastFilterRequest := c'.request.lastFilterRequest)
            && c'.request.lastFilterRequest.Some?
  {
  }

  /** A good filter is checked off; a range that is finished is followed by the next. */
  lemma TakeFilter(start: Client, n: Client, f: CFilter) returns (n': Client)
    requires Reached(start, n) && !AllChecked(n.chain.tree) && Good(n.chain, f) && n.chain.request.lastFilterRequest.Some?
    ensures Reached(start, n')
    ensures n' == n.(chain := CheckOff(n.chain, f).(request := n'.chain.request))
    ensures n'.chain.request == n.chain.request.(lastFilterRequest := n'.chain.request.lastFilterRequest)
    ensures n'.chain.request.lastFilterRequest.Some?
  {
    FilterTaken(n.chain, f);
    ReachedStep(start, n, FilterMessage(0, f));
    n' := n.(chain := SyncFilter(n.chain, f).0);
    assert Step(n, FilterMessage(0, f)).0 == n';
  }

  lemma Turn(start: Client, n: Client) returns (n': Client)
    requires Reached(start, n)
    ensures Reached(start, n') && n' == AdvanceState(n)
  {
    ReachedStep(start, n, Advance(false));
    n' := Step(n, Advance(false)).0;
  }

  /** A client whose filters are all checked goes on to download blocks. */
  lemma TurnToBlocks(start: Client, n: Client) returns (n': Client)
    requires Reached(start, n) && n.phase == Behind && IsSynced(n.chain)
    requires AllCommitted(n.chain.tree) && AllChecked(n.chain.tree)
    ensures Reached(start, n') && n' == n.(phase := FiltersSynced)
  {
    n' := Turn(start, n);
    n' := Turn(start, n');
    n' := Turn(start, n');
  }

  // ---------- Trees ----------

  lemma GrowTip(t: Tree, h: Header)
    requires h.prev == t.tip.hash && !BadBits(t.tip.nextWork, h)
    requires NextWork(t, t.tip.height + 1, t.tip.nextWork) == t.tip.nextWork
    ensures var height := t.tip.height + 1;
            Accept(t, h) == (t.(headers := t.headers[h.BlockHash() := FreshNode(height, h, WorkOf(t, t.tip.hash) + h.bits.work)],
                                tip := Tip(h.BlockHash(), height, t.tip.nextWork),
                                index := t.index[height := h.BlockHash()]),
                             Accepted(Indexed(height, h)))
  {
  }

  lemma GrowFork(t: Tree, h: Header)
    requires !Retargets(t.net) && h.prev in t.headers && h.prev != t.tip.hash && h.BlockHash() !in t.headers
    requires Position(t.forks, h.prev) == |t.forks| && h.bits == t.headers[h.prev].header.bits
    ensures var height := t.headers[h.prev].height + 1;
            Accept(t, h) == (t.(headers := t.headers[h.BlockHash() := FreshNode(height, h, t.headers[h.prev].accWork + h.bits.work)],
                                forks := t.forks + [Tip(h.BlockHash(), height, Some(h.bits))]),
                             ExtendedFork(Indexed(height, h)))
  {
  }

  /** The only candidate grows, and wins or stays a candidate. */
  lemma GrowOnlyCandidate(t: Tree, h: Header)
    requires !Retargets(t.net) && |t.forks| == 1 && t.forks[0].hash == h.prev && h.prev in t.headers
    requires h.prev != t.tip.hash && h.BlockHash() !in t.headers && !BadBits(t.forks[0].nextWork, h)
    requires t.tip.hash in t.headers && h.BlockHash() != t.tip.hash
    ensures var height, work := t.headers[h.prev].height + 1, t.headers[h.prev].accWork + h.bits.work;
            var hs := t.headers[h.BlockHash() := FreshNode(height, h, work)];
            var tip := Tip(h.BlockHash(), height, t.forks[0].nextWork);
            if t.headers[t.tip.hash].accWork < work
            then var s := Switch(hs, t.index, h.BlockHash());
                 Accept(t, h) == (t.(headers := hs, forks := [t.tip], tip := tip, index := s.index),
                                  Reorganization(s.accepted, s.disconnected))
            else Accept(t, h) == (t.(headers := hs, forks := [tip]), ExtendedFork(Indexed(height, h)))
  {
    assert Position(t.forks, h.prev) == 0 && SwapRemove(t.forks, 0) == [] && t.forks[..0] == [];
    assert Accept(t, h) == ExtendCandidate(t, h, 0);
    var newTip := Tip(h.BlockHash(), t.headers[h.prev].height + 1, t.forks[0].nextWork);
    assert [] + [t.tip] == [t.tip] && [] + [newTip] == [newTip];
  }
}
