/** What each turn and each message makes of the node, told from heights, flags and queue, and what
    follows for runs without peers and for runs behind them. */
module NodeAnswers {
  import opened Commons
  import opened Hashes
  import opened Graph
  import opened GraphIndex
  import opened GraphFilters
  import opened BlockTrees
  import opened FilterHeaders
  import opened ChainState
  import opened ChainInvariant
  import opened NodeState
  import opened NodeRuns
  import opened Findings
  import opened Causes
  import HeaderStores
  import BlockQueues

  // ---------- Turns ----------

  /** Some peer reported a height, and the tip is at or above all that were reported. */
  ghost predicate CaughtUp(c: Chain) {
    (exists p :: p in c.heights) && forall p | p in c.heights :: c.heights[p] <= c.tree.tip.height
  }

  ghost predicate CommitmentsDue(t: Tree) {
    exists x :: Active(t, x) && t.headers[x].commitment.None?
  }

  lemma DueIffNotAll(c: Chain)
    ensures IsSynced(c) <==> CaughtUp(c)
    ensures AllCommitted(c.tree) <==> !CommitmentsDue(c.tree)
    ensures AllChecked(c.tree) <==> !ScanIsDue(c.tree)
  {
    if p :| p in c.heights {
      assert c.heights != map[];
    }
  }

  /** Each phase is left on its own condition and for the next phase; only the last step tells the
      client, and only a synced node with a stale tip disconnects. */
  lemma TurnMovesIff(n: Client, stale: bool)
    requires Books(n)
    ensures var ((n', reply), c) := (Step(n, Advance(stale)), n.chain);
            && (n.phase == Behind ==> n' == n.(phase := if CaughtUp(c) then HeadersSynced else Behind))
            && (n.phase == HeadersSynced ==>
                  n' == n.(phase := if CommitmentsDue(c.tree) then HeadersSynced else FilterHeadersSynced))
            && (n.phase == FilterHeadersSynced ==>
                  n' == n.(phase := if ScanIsDue(c.tree) then FilterHeadersSynced else FiltersSynced))
            && (n.phase == FiltersSynced ==>
                  if c.queue.want.Some? || c.queue.queue != [] then n' == n
                  else n'.phase == TransactionsSynced && n'.chain == c.(events := n'.chain.events)
                       && |n'.chain.events| == |c.events| + 1 && n'.chain.events[..|c.events|] == c.events
                       && n'.chain.events[|c.events|].Synced?)
            && (n.phase == TransactionsSynced ==> n' == n)
            && (reply == Some(Disconnect) <==> n.phase == TransactionsSynced && stale)
            && (reply.Some? ==> reply == Some(Disconnect))
  {
    DueIffNotAll(n.chain);
  }

  /** Headers are asked for until all peers are caught up with, then filter headers until all active
      headers have one, then filters until all are checked. */
  lemma NextMessageIff(c: Chain)
    ensures var (c', reply) := NextStatefulMessage(c);
            && (reply.Some? && reply.value.GetHeaders? <==> !CaughtUp(c))
            && (reply.Some? && reply.value.GetFilterHeaders? <==> CaughtUp(c) && CommitmentsDue(c.tree))
            && (reply.Some? && reply.value.GetFilters? <==> CaughtUp(c) && !CommitmentsDue(c.tree) && ScanIsDue(c.tree))
            && (reply.None? <==> CaughtUp(c) && !CommitmentsDue(c.tree) && !ScanIsDue(c.tree))
            && (reply.Some? && reply.value.GetHeaders? ==> c' == c && reply.value.locators == Locators(c.tree))
            && (reply.Some? && reply.value.GetFilterHeaders? ==> (c', reply.value.filterHeaders) == NextCFHeaderMessage(c))
            && (reply.Some? && reply.value.GetFilters? ==> (c', reply.value.filters) == NextFilterMessage(c))
            && (reply.None? ==> c' == c)
  {
    DueIffNotAll(c);
  }

  /** The locators end with the tip; before it come the active headers at the fixed distances,
      farthest first. */
  lemma LocatorsEndAtTip(t: Tree, i: nat)
    requires Valid(t) && Exact(t) && t.headers != map[] && i + 1 < |Locators(t)|
    ensures Locators(t)[|Locators(t)| - 1] == t.tip.hash
    ensures i < |LOCATOR_INDEX| && LOCATOR_INDEX[i] <= t.tip.height && t.origin.height < t.tip.height - LOCATOR_INDEX[i]
    ensures Locators(t)[|Locators(t)| - 2 - i] == AtHeight(t, t.tip.height - LOCATOR_INDEX[i])
  {
    LocatorIsActive(t, LOCATOR_INDEX, i);
  }

  // ---------- Messages ----------

  /** What `n` more blocks make of a height: it never passes the largest 32-bit number. */
  function Raised(height: nat, n: nat): nat {
    if height + n < 0x1_0000_0000 then height + n else if height < 0x1_0000_0000 then 0xFFFF_FFFF else height
  }

  lemma {:induction false} IncrementsRaise(heights: map<Peer, nat>, peer: Peer, times: nat)
    ensures Increments(heights, peer, times)
         == if peer in heights then heights[peer := Raised(heights[peer], times)] else heights
    decreases times
  {
    if 0 < times && peer in heights {
      IncrementsRaise(heights[peer := SaturatingSucc(heights[peer])], peer, times - 1);
    } else if peer in heights {
      assert heights[peer := heights[peer]] == heights;
    }
  }

  /** The message names a block that is not known. */
  ghost predicate NamesNews(t: Tree, blocks: seq<Hash>) {
    exists i :: 0 <= i < |blocks| && blocks[i] !in t.headers && blocks[i] != t.tip.hash
  }

  /** An inventory raises the height of a known peer by one for each block. If the node is past
      headers and one of the blocks is news, the node falls behind, forgets the request for filter
      headers and its votes, and asks for headers; otherwise nothing else happens. */
  lemma InventoryMeans(n: Client, peer: Peer, blocks: seq<Hash>)
    requires Books(n)
    ensures var ((n', reply), c) := (Step(n, Inventory(peer, blocks)), n.chain);
            var heights := if peer in c.heights then c.heights[peer := Raised(c.heights[peer], |blocks|)] else c.heights;
            if n.phase != Behind && NamesNews(c.tree, blocks)
            then n' == Client(Behind, c.(heights := heights, request := RequestState(
                         c.request.lastFilterRequest, None, Agreement(None, 0, c.request.agreement.required))))
                 && reply == Some(GetHeaders(Locators(c.tree)))
            else n' == n.(chain := c.(heights := heights)) && reply == None
  {
    IncrementsRaise(n.chain.heights, peer, |blocks|);
    if NamesNews(n.chain.tree, blocks) {
      var i :| 0 <= i < |blocks| && blocks[i] !in n.chain.tree.headers && blocks[i] != n.chain.tree.tip.hash;
      assert blocks[i] in blocks;
    }
  }

  /** A peer is turned away if its protocol is too old, or if it lacks a service and the node has
      its headers; its height is kept either way. */
  lemma VersionMeans(n: Client, peer: Peer, height: nat, version: Version)
    requires Books(n)
    ensures var (n', reply) := Step(n, VersionMessage(peer, height, version));
            && n' == n.(chain := n.chain.(heights := n.chain.heights[peer := height]))
            && reply == Some(
                 if version.protocol < 70_016 || (n.phase != Behind && (!version.network || !version.compactFilters))
                 then Disconnect else GetHeaders(Locators(n.chain.tree)))
  {
  }

  /** A message of headers is answered by a disconnection exactly if it is in error, except that a
      node that is caught up forgives an empty one; otherwise by what is due next. */
  lemma HeadersAnswerIff(n: Client, peer: Peer, hs: seq<Header>, fault: HeaderStores.Fault)
    requires Books(n)
    ensures var ((n', reply), (c, error)) := (Step(n, HeadersMessage(peer, hs, fault)), SyncChain(n.chain, hs, fault));
            && n'.phase == n.phase
            && (if error.Some? && !(hs == [] && CaughtUp(n.chain)) then n'.chain == c && reply == Some(Disconnect)
                else (n'.chain, reply) == NextStatefulMessage(c))
  {
    DueIffNotAll(n.chain);
    EmptyIsEmpty(n.chain, hs, fault);
  }

  lemma EmptyIsEmpty(c: Chain, hs: seq<Header>, fault: HeaderStores.Fault)
    ensures SyncChain(c, hs, fault).1 == Some(EmptyMessage) <==> hs == []
    ensures hs == [] ==> SyncChain(c, hs, fault).0 == c
  {
    BatchIsNotEmpty(c, hs, NextCheckpoint(c));
  }

  lemma {:induction false} BatchIsNotEmpty(c: Chain, hs: seq<Header>, next: Option<Checkpoint>)
    ensures AbsorbAll(c, hs, next).error != Some(EmptyMessage)
    decreases |hs|
  {
    if hs != [] {
      BatchIsNotEmpty(AbsorbOne(c, hs[0], next).chain, hs[1..], next);
    }
  }

  /** A reply is answered by a disconnection if it is in error or conflicts, by nothing while votes
      are missing, and by what is due next once it is committed. */
  lemma CFHeadersAnswerIff(n: Client, peer: Peer, message: CFHeaders)
    requires Books(n)
    ensures var ((n', reply), (c, result)) := (Step(n, FilterHeadersMessage(peer, message)), SyncCFHeaders(n.chain, peer, message));
            && n'.phase == n.phase
            && (if result == Counted(Extended) then (n'.chain, reply) == NextStatefulMessage(c)
                else n'.chain == c && reply == if result == Counted(AddedToQueue) then None else Some(Disconnect))
  {
  }

  /** A filter or a block in error is answered by a disconnection, a finished range of filters by
      the next request, and anything else by nothing. */
  lemma FindingsAnswerIff(n: Client, peer: Peer, f: CFilter, b: Block)
    requires Books(n)
    ensures var ((n', reply), (c, result)) := (Step(n, FilterMessage(peer, f)), SyncFilter(n.chain, f));
            && n' == n.(chain := c) && (reply == Some(Disconnect) <==> result.FilterError?)
            && (result.FilterOk? ==> reply == if result.next.Some? then Some(GetFilters(result.next.value)) else None)
    ensures var ((n', reply), (c, error)) := (Step(n, BlockMessage(peer, b)), CheckSendBlock(n.chain, b));
            n' == n.(chain := c) && reply == if error.Some? then Some(Disconnect) else None
  {
  }

  /** Blocks are asked for while filters are checked or blocks are missing, the next one in line
      first, and none before five seconds have passed since it was asked for. */
  lemma PopAsksIff(n: Client, now: nat)
    requires Books(n)
    ensures var ((n', reply), q) := (Step(n, PopQueue(now)), n.chain.queue);
            && n' == n.(chain := n.chain.(queue := n'.chain.queue)) && BlockQueues.Line(n'.chain.queue) == BlockQueues.Line(q)
            && (reply.Some? <==>
                  && (n.phase == FilterHeadersSynced || n.phase == FiltersSynced) && BlockQueues.Line(q) != []
                  && (q.want.Some? ==> 5_000 <= SaturatingSub(now, q.lastReq)))
            && (reply.Some? ==> reply == Some(GetBlock(BlockQueues.Line(q)[0])) && n'.chain.queue.want == Some(BlockQueues.Line(q)[0]))
  {
    BlockQueues.PopRequestsHead(n.chain.queue, now);
  }

  /** A rescan does nothing before filter headers are synced; after that it makes the filters of
      the active chain due again, whatever they were, and asks for the first. */
  lemma RescanMeans(n: Client)
    requires Books(n)
    ensures var ((n', reply), c) := (Step(n, Rescan), n.chain);
            if n.phase == Behind || n.phase == HeadersSynced then n' == n && reply == None
            else
              && n'.phase == FilterHeadersSynced && reply == Some(GetFilters(NextFilterMessage(n'.chain).1))
              && SameShape(c.tree, n'.chain.tree) && n'.chain == c.(tree := n'.chain.tree, request := n'.chain.request)
              && n'.chain.request == c.request.(lastFilterRequest := Some(reply.value.filters))
              && forall x | Active(n'.chain.tree, x) :: !n'.chain.tree.headers[x].checked
  {
    BlockTreesReset(n.chain.tree);
    forall x | x in n.chain.tree.headers && Active(n.chain.tree, x)
      ensures !ResetFilters(n.chain.tree).headers[x].checked
    {
      ResetKeepsFlagIff(n.chain.tree, x);
    }
  }

  // ---------- Heights ----------

  ghost function HeightsAfter(heights: map<Peer, nat>, input: Input): map<Peer, nat> {
    match input
    case VersionMessage(peer, height, _) => heights[peer := height]
    case PeersLeft(live) => map p | p in heights && p in live :: heights[p]
    case Inventory(peer, blocks) => if peer in heights then heights[peer := Raised(heights[peer], |blocks|)] else heights
    case _ => heights
  }

  lemma {:induction false} BatchKeepsHeights(c: Chain, hs: seq<Header>, next: Option<Checkpoint>)
    ensures AbsorbAll(c, hs, next).chain.heights == c.heights
    decreases |hs|
  {
    if hs != [] {
      BatchKeepsHeights(AbsorbOne(c, hs[0], next).chain, hs[1..], next);
    }
  }

  lemma HeadersKeepHeights(n: Client, hs: seq<Header>, fault: HeaderStores.Fault)
    ensures HandleHeaders(n, hs, fault).0.chain.heights == n.chain.heights
  {
    BatchKeepsHeights(n.chain, hs, NextCheckpoint(n.chain));
    assert SyncChain(n.chain, hs, fault).0.heights == n.chain.heights;
  }

  lemma OthersKeepHeights(n: Client, input: Input)
    requires Books(n) && !input.HeadersMessage? && !input.Inventory?
    ensures Step(n, input).0.chain.heights == HeightsAfter(n.chain.heights, input)
  {
    match input
    case FilterHeadersMessage(peer, message) => CFHeadersKeepHeights(n, peer, message);
    case _ =>
  }

  lemma CFHeadersKeepHeights(n: Client, peer: Peer, message: CFHeaders)
    requires Books(n)
    ensures HandleCFHeaders(n, peer, message).0.chain.heights == n.chain.heights
  {
    assert SyncCFHeaders(n.chain, peer, message).0.heights == n.chain.heights;
  }

  /** The heights of the peers are those they reported, raised by their inventories. */
  lemma StepHeights(n: Client, input: Input)
    requires Books(n)
    ensures Step(n, input).0.chain.heights == HeightsAfter(n.chain.heights, input)
  {
    match input
    case HeadersMessage(_, hs, fault) => HeadersKeepHeights(n, hs, fault);
    case Inventory(peer, blocks) => IncrementsRaise(n.chain.heights, peer, |blocks|);
    case _ => OthersKeepHeights(n, input);
  }

  // ---------- Runs behind the peers ----------

  /** A node leaves the phase behind only by a turn at which it is caught up. */
  lemma BehindStays(n: Client, input: Input)
    requires Books(n) && n.phase == Behind && (input.Advance? ==> !CaughtUp(n.chain))
    ensures Step(n, input).0.phase == Behind
  {
    DueIffNotAll(n.chain);
  }

  /** No turn of the run finds the node caught up. */
  ghost predicate NeverCaughtUp(start: Client, inputs: seq<Input>)
    requires Books(start)
  {
    forall k | 0 <= k < |inputs| && inputs[k].Advance? :: !CaughtUp(RunAll(start, inputs[..k]).chain)
  }

  ghost predicate NoSync(events: seq<Event>, from: nat) {
    forall j | from <= j < |events| :: !events[j].Synced?
  }

  lemma NeverCaughtUpBefore(start: Client, inputs: seq<Input>, n: nat)
    requires Books(start) && NeverCaughtUp(start, inputs) && n <= |inputs|
    ensures NeverCaughtUp(start, inputs[..n])
  {
    forall k | 0 <= k < n && inputs[..n][k].Advance? ensures !CaughtUp(RunAll(start, inputs[..n][..k]).chain) {
      assert inputs[..n][..k] == inputs[..k] && inputs[k].Advance?;
    }
  }

  lemma {:induction false} NeverCaughtUpStaysBehind(start: Client, inputs: seq<Input>)
    requires Books(start) && start.phase == Behind && NeverCaughtUp(start, inputs)
    ensures RunAll(start, inputs).phase == Behind
    decreases |inputs|
  {
    if inputs != [] {
      var last := |inputs| - 1;
      RunSplit(start, inputs);
      NeverCaughtUpBefore(start, inputs, last);
      NeverCaughtUpStaysBehind(start, inputs[..last]);
      BehindStays(RunAll(start, inputs[..last]), inputs[last]);
    }
  }

  /** A run that is never caught up ends behind, and announces no sync. */
  lemma BehindUntilCaughtUp(start: Client, inputs: seq<Input>)
    requires Books(start) && start.phase == Behind && NeverCaughtUp(start, inputs)
    ensures RunAll(start, inputs).phase == Behind
    ensures NoSync(RunAll(start, inputs).chain.events, |start.chain.events|)
  {
    NeverCaughtUpStaysBehind(start, inputs);
    var events := RunAll(start, inputs).chain.events;
    forall j | |start.chain.events| <= j < |events| ensures !events[j].Synced? {
      var k := EventHasCause(start, inputs, j);
      NeverCaughtUpBefore(start, inputs, k);
      NeverCaughtUpStaysBehind(start, inputs[..k]);
    }
  }

  ghost predicate NoVersions(inputs: seq<Input>) {
    forall i | 0 <= i < |inputs| :: !inputs[i].VersionMessage?
  }

  lemma {:induction false} HeightsStayEmpty(start: Client, inputs: seq<Input>)
    requires Books(start) && start.chain.heights == map[] && NoVersions(inputs)
    ensures RunAll(start, inputs).chain.heights == map[]
    decreases |inputs|
  {
    if inputs != [] {
      StepKeepsBooks(start, inputs[0]);
      StepHeights(start, inputs[0]);
      HeightsStayEmpty(Step(start, inputs[0]).0, inputs[1..]);
    }
  }

  /** A node that starts without peers and hears of none stays behind and announces no sync. */
  lemma NoPeersNoSync(start: Client, inputs: seq<Input>)
    requires Books(start) && start.phase == Behind && start.chain.heights == map[] && NoVersions(inputs)
    ensures RunAll(start, inputs).phase == Behind
    ensures NoSync(RunAll(start, inputs).chain.events, |start.chain.events|)
  {
    forall k | 0 <= k < |inputs| && inputs[k].Advance? ensures !CaughtUp(RunAll(start, inputs[..k]).chain) {
      HeightsStayEmpty(start, inputs[..k]);
    }
    BehindUntilCaughtUp(start, inputs);
  }

  /** The peer stays, and reports no other height. */
  ghost predicate Stays(p: Peer, inputs: seq<Input>) {
    forall i | 0 <= i < |inputs| ::
      && !(inputs[i].VersionMessage? && inputs[i].peer == p) && !(inputs[i].PeersLeft? && p !in inputs[i].live)
  }

  lemma {:induction false} HeightStays(start: Client, inputs: seq<Input>, p: Peer)
    requires Books(start) && p in start.chain.heights && Stays(p, inputs)
    ensures p in RunAll(start, inputs).chain.heights
    ensures start.chain.heights[p] <= RunAll(start, inputs).chain.heights[p]
    decreases |inputs|
  {
    if inputs != [] {
      StepKeepsBooks(start, inputs[0]);
      StepHeights(start, inputs[0]);
      HeightStays(Step(start, inputs[0]).0, inputs[1..], p);
    }
  }

  /** While a peer stays that is ahead of the tip, a node that is behind stays behind and announces
      no sync, whatever it hears. */
  lemma BehindAPeerNoSync(start: Client, inputs: seq<Input>, p: Peer)
    requires Books(start) && start.phase == Behind && p in start.chain.heights && Stays(p, inputs)
    requires forall k | 0 <= k < |inputs| :: RunAll(start, inputs[..k]).chain.tree.tip.height < start.chain.heights[p]
    ensures RunAll(start, inputs).phase == Behind
    ensures NoSync(RunAll(start, inputs).chain.events, |start.chain.events|)
  {
    forall k | 0 <= k < |inputs| && inputs[k].Advance? ensures !CaughtUp(RunAll(start, inputs[..k]).chain) {
      HeightStays(start, inputs[..k], p);
    }
    BehindUntilCaughtUp(start, inputs);
  }
}
