/** Whole runs of the node, from loading the stored headers on: what the `Synced` event promises,
    and what holds of filter headers and of the table all along. */
module NodeRuns {
  import opened Hashes
  import opened Graph
  import opened GraphInvariant
  import opened GraphFilters
  import opened FilterHeaders
  import opened ChainState
  import opened FilterHeaderChain
  import opened ChainInvariant
  import opened ChainLoad
  import opened NodeState
  import HeaderStores
  import BlockQueues

  // ---------- The books are kept by every step ----------

  ghost predicate Kept(c: Chain) {
    Accounted(c) && BelowQuorum(c.request.agreement) && RequestAbove(c)
  }

  ghost predicate Books(n: Client) { Kept(n.chain) }

  lemma NextStatefulKept(c: Chain)
    requires Kept(c)
    ensures Kept(NextStatefulMessage(c).0)
    ensures NextStatefulMessage(c).0.tree == c.tree && NextStatefulMessage(c).0.store == c.store
  {
    if IsSynced(c) && !AllCommitted(c.tree) {
      UnsyncedIsAbove(c);
    }
    SameAccountsKeeps(c, NextStatefulMessage(c).0);
  }

  lemma {:induction false} AbsorbAllOrigin(c: Chain, hs: seq<Header>, next: Option<Checkpoint>)
    requires Valid(c.tree)
    ensures AbsorbAll(c, hs, next).chain.tree.origin == c.tree.origin
    ensures AbsorbAll(c, hs, next).chain.request == c.request
    decreases |hs|
  {
    if hs != [] {
      AcceptValid(c.tree, hs[0]);
      AbsorbOneRequest(c, hs[0], next);
      AbsorbAllOrigin(AbsorbOne(c, hs[0], next).chain, hs[1..], next);
    }
  }

  lemma SyncChainKept(c: Chain, hs: seq<Header>, fault: HeaderStores.Fault)
    requires Kept(c)
    ensures Kept(SyncChain(c, hs, fault).0)
  {
    SyncChainAccounts(c, hs, fault);
    AbsorbAllOrigin(c, hs, NextCheckpoint(c));
    SyncChainRequest(c, hs, fault);
  }

  lemma HandleHeadersKept(n: Client, hs: seq<Header>, fault: HeaderStores.Fault)
    requires Books(n)
    ensures Books(HandleHeaders(n, hs, fault).0)
  {
    SyncChainKept(n.chain, hs, fault);
    NextStatefulKept(SyncChain(n.chain, hs, fault).0);
  }

  lemma HandleCFHeadersKept(n: Client, peer: Peer, message: CFHeaders)
    requires Books(n)
    ensures Books(HandleCFHeaders(n, peer, message).0)
  {
    SyncCFHeadersAccounts(n.chain, peer, message);
    SyncCFHeadersShape(n.chain, peer, message);
    NextStatefulKept(SyncCFHeaders(n.chain, peer, message).0);
  }

  lemma HandleFilterKept(n: Client, f: CFilter)
    requires Books(n)
    ensures Books(HandleFilter(n, f).0)
  {
    SyncFilterAccounts(n.chain, f);
    SyncFilterOnlyChecks(n.chain, f);
  }

  lemma PopKept(n: Client, now: nat)
    requires Books(n)
    ensures Books(PopBlockQueue(n, now).0)
  {
    var n' := PopBlockQueue(n, now).0;
    forall x ensures InQueue(n.chain, x) <==> InQueue(n'.chain, x) {
      BlockQueues.InLine(n.chain.queue, x);
      BlockQueues.PopRequestsHead(n.chain.queue, now);
      BlockQueues.InLine(n'.chain.queue, x);
    }
    SameAccountsKeeps(n.chain, n'.chain);
  }

  lemma RescanKept(n: Client)
    requires Books(n)
    ensures Books(RescanFilters(n).0)
  {
    ClearFiltersAccounts(n.chain);
    var c := ClearFilters(n.chain);
    SameAccountsKeeps(c, NextFilterMessage(c).0);
  }

  lemma AdvanceKept(n: Client)
    requires Books(n)
    ensures Books(AdvanceState(n))
  {
    var c, c' := n.chain, AdvanceState(n).chain;
    if c' != c {
      forall i | 0 <= i < |c.log| && c.log[i].Delivered? ensures Announced(c'.events, c.log[i].block) {
        AnnouncedLater(c.events, c'.events[|c.events|], c.log[i].block);
        assert c'.events == c.events + [c'.events[|c.events|]];
      }
    }
  }

  lemma InventoryKept(n: Client, peer: Peer, blocks: seq<Hash>)
    requires Books(n)
    ensures Books(HandleInventoryBlocks(n, peer, blocks).0)
  {
    SameAccountsKeeps(n.chain, HandleInventoryBlocks(n, peer, blocks).0.chain);
  }

  lemma StepKeepsBooks(n: Client, input: Input)
    requires Books(n)
    ensures Books(Step(n, input).0)
  {
    match input
    case Advance(_) => AdvanceKept(n);
    case PopQueue(now) => PopKept(n, now);
    case HeadersMessage(_, hs, fault) => HandleHeadersKept(n, hs, fault);
    case FilterHeadersMessage(peer, message) => HandleCFHeadersKept(n, peer, message);
    case FilterMessage(_, f) => HandleFilterKept(n, f);
    case BlockMessage(_, b) => CheckSendBlockAccounts(n.chain, b);
    case Inventory(peer, blocks) => InventoryKept(n, peer, blocks);
    case Rescan => RescanKept(n);
    case _ => SameAccountsKeeps(n.chain, Step(n, input).0.chain);
  }

  lemma CFHeadersKeepShape(n: Client, peer: Peer, message: CFHeaders)
    requires Books(n)
    ensures SameShape(n.chain.tree, HandleCFHeaders(n, peer, message).0.chain.tree)
    ensures HandleCFHeaders(n, peer, message).0.chain.store == n.chain.store
  {
    SyncCFHeadersAccounts(n.chain, peer, message);
    SyncCFHeadersShape(n.chain, peer, message);
    NextStatefulKept(SyncCFHeaders(n.chain, peer, message).0);
  }

  /** Inputs that neither bring headers, filter headers or filters nor ask for a rescan. */
  lemma OtherStepsKeepTree(n: Client, input: Input)
    requires Books(n) && !input.HeadersMessage? && !input.FilterHeadersMessage? && !input.FilterMessage? && !input.Rescan?
    ensures Step(n, input).0.chain.tree == n.chain.tree && Step(n, input).0.chain.store == n.chain.store
    ensures n.chain.log <= Step(n, input).0.chain.log
  {
  }

  lemma OtherInputsKeepShape(n: Client, input: Input)
    requires Books(n) && !input.HeadersMessage?
    ensures Step(n, input).0.chain.store == n.chain.store
    ensures SameShape(n.chain.tree, Step(n, input).0.chain.tree)
  {
    match input
    case FilterHeadersMessage(peer, message) => CFHeadersKeepShape(n, peer, message);
    case FilterMessage(_, f) => SyncFilterOnlyChecks(n.chain, f);
    case Rescan => BlockTreesReset(n.chain.tree);
    case _ => OtherStepsKeepTree(n, input);
  }

  ghost function RunAll(n: Client, inputs: seq<Input>): (end: Client)
    requires Books(n)
    ensures Books(end)
    decreases |inputs|
  {
    if inputs == [] then n
    else
      StepKeepsBooks(n, inputs[0]);
      RunAll(Step(n, inputs[0]).0, inputs[1..])
  }

  // ---------- Starting ----------

  ghost predicate Fresh(c: Chain) {
    && c.tree == FromTip(c.tree.net, c.tree.tip) && c.log == [] && c.events == []
    && c.queue.queue == [] && c.queue.want == None
    && c.request.lastFilterHeaderRequest == None && c.request.agreement.current == 0
    && c.request.agreement.pending == None && c.store.accepted == map[] && c.store.disconnected == {}
  }

  ghost predicate NoFlags(t: Tree) {
    Valid(t) && forall x | x in t.headers :: !t.headers[x].checked && t.headers[x].commitment.None?
  }

  lemma AcceptKeepsNoFlags(t: Tree, h: Header)
    requires NoFlags(t)
    ensures NoFlags(Accept(t, h).0)
  {
    AcceptValid(t, h);
    InsertedLeaf(t, h);
  }

  lemma {:induction false} LoadRowsNoFlags(t: Tree, cps: seq<Checkpoint>, table: map<nat, Header>, k: nat, hi: nat)
    requires NoFlags(t)
    ensures NoFlags(LoadRows(t, cps, table, k, hi).tree)
    decreases hi - k
  {
    if k < hi {
      if k !in table {
        LoadRowsNoFlags(t, cps, table, k + 1, hi);
      } else {
        AcceptKeepsNoFlags(t, table[k]);
        var (t', changes) := Accept(t, table[k]);
        LoadRowsNoFlags(t', cps, table, k + 1, hi);
        if changes.Accepted? && cps != [] && changes.connectedAt.header.BlockHash() == cps[0].hash {
          LoadRowsNoFlags(t', cps[1..], table, k + 1, hi);
        }
      }
    }
  }

  /** The node starts behind, with the stored headers loaded. */
  ghost predicate Started(n: Client) {
    n.phase == Behind && exists c, hi :: Fresh(c) && LoadHeaders(c, hi) == (n.chain, None)
  }

  lemma LoadedParts(c: Chain, base: Tree, hi: nat)
    requires LoadOnto(c, base, hi).1 == None
    ensures var c', l := LoadOnto(c, base, hi).0, LoadRows(base, c.checkpoints, c.store.table, base.tip.height + 1, hi);
            && c'.tree == AssumeChecked(l.tree, c.tree.tip.height)
            && c'.log == c.log + [Assumed(AssumedHashes(l.tree, c.tree.tip.height))]
            && c'.events == c.events && c'.queue == c.queue && c'.request == c.request && c'.store == c.store
  {
  }

  lemma StartedBooks(n: Client)
    requires Started(n)
    ensures Books(n) && CommitmentsChain(n.chain.tree)
    ensures n.chain.request.lastFilterHeaderRequest == None
  {
    var c, hi :| Fresh(c) && LoadHeaders(c, hi) == (n.chain, None);
    var base := BaseTree(c);
    BaseIsStraight(c);
    LoadedParts(c, base, hi);
    LoadRowsNoFlags(base, c.checkpoints, c.store.table, base.tip.height + 1, hi);
    LoadedBooks(c, LoadRows(base, c.checkpoints, c.store.table, base.tip.height + 1, hi).tree, n.chain);
  }

  lemma LoadedBooks(c: Chain, t: Tree, c': Chain)
    requires Fresh(c) && NoFlags(t) && c'.tree == AssumeChecked(t, c.tree.tip.height)
    requires c'.log == [Assumed(AssumedHashes(t, c.tree.tip.height))]
    requires c'.events == c.events && c'.queue == c.queue && c'.request == c.request
    ensures Kept(c') && CommitmentsChain(c'.tree)
  {
    SameShapeKeeps(t, c'.tree);
    forall x | x in c'.tree.headers && c'.tree.headers[x].checked ensures Justified(c'.log, x) {
      assert Justifies(c'.log[0], x);
    }
    forall x ensures Status(c'.log, x) == Clear {
      assert c'.log[..0] == [];
    }
  }

  lemma StartedStore(n: Client)
    requires Started(n)
    ensures n.chain.store.accepted == map[] && n.chain.store.disconnected == {}
  {
    var c, hi :| Fresh(c) && LoadHeaders(c, hi) == (n.chain, None);
    LoadedParts(c, BaseTree(c), hi);
  }
}
