/** What the `Synced` event promises, and when the promise holds. */
module NodeSync {
  import opened Hashes
  import opened Graph
  import opened GraphInvariant
  import opened GraphIndex
  import opened GraphWork
  import opened GraphFilters
  import opened FilterHeaders
  import opened ChainState
  import opened FilterHeaderChain
  import opened FilterProgress
  import opened ChainInvariant
  import opened NodeState
  import HeaderStores
  import opened NodeRuns
  import opened Deliveries
  import opened Evidence

  // ---------- Filters stay checked while blocks are downloaded ----------

  /** Accepting a header undoes a finished scan exactly when it moves the tip: a new tip is
      never checked. */
  lemma AcceptKeepsScanIff(t: Tree, h: Header)
    requires Valid(t) && AllChecked(t)
    ensures AllChecked(Accept(t, h).0) <==> !MovesTip(t, h)
  {
    var t' := Accept(t, h).0;
    MovesTipIff(t, h);
    AcceptValid(t, h);
    if MovesTip(t, h) {
      NewTipUnchecked(t, h);
    } else {
      NotReorganizingByTip(t, h);
      OnlyAddsKeepsScan(t, t');
    }
  }

  lemma NewTipUnchecked(t: Tree, h: Header)
    requires Valid(t) && Accept(t, h).0.tip.hash != t.tip.hash
    ensures Accept(t, h).0.tip.hash == h.BlockHash() && Active(Accept(t, h).0, h.BlockHash())
    ensures !Accept(t, h).0.headers[h.BlockHash()].checked
  {
    InsertedLeaf(t, h);
    if h.prev == t.tip.hash {
      TipHasNoStoredChild(t, h);
    } else if Reorganizes(t, h) {
      ReorganizationShape(t, h);
    } else {
      NotReorganizing(t, h);
    }
  }

  lemma NotReorganizingByTip(t: Tree, h: Header)
    requires Valid(t) && Accept(t, h).0.tip.hash == t.tip.hash
    ensures OnlyAdds(t, Accept(t, h).0)
  {
    NotOwnParent(h);
    if h.prev == t.tip.hash {
    } else {
      assert !Reorganizes(t, h) by {
        if Reorganizes(t, h) {
          ReorganizationShape(t, h);
        }
      }
      NotReorganizing(t, h);
    }
  }

  lemma OnlyAddsKeepsScan(t: Tree, t': Tree)
    requires Valid(t) && Valid(t') && OnlyAdds(t, t') && AllChecked(t)
    ensures AllChecked(t')
  {
    forall x | Active(t', x) ensures t'.headers[x].checked {
      if t.headers != map[] {
        assert Placed(t', x);
        AncestorsAreStored(t, t.tip.hash, x);
      }
      assert Active(t, x);
    }
  }

  /** A header of the batch moves the tip, before any is refused. */
  ghost predicate BatchMovesTip(c: Chain, hs: seq<Header>, next: Option<Checkpoint>)
    decreases |hs|
  {
    && hs != []
    && (MovesTip(c.tree, hs[0])
        || (AbsorbOne(c, hs[0], next).error == None && BatchMovesTip(AbsorbOne(c, hs[0], next).chain, hs[1..], next)))
  }

  /** Headers stay as they are, and the work of the tip never falls. */
  ghost predicate Grown(t: Tree, t': Tree) {
    && Valid(t') && t'.origin == t.origin && TipWork(t) <= TipWork(t')
    && forall x | x in t.headers :: x in t'.headers && t'.headers[x] == t.headers[x]
  }

  lemma AcceptGrows(t: Tree, h: Header)
    requires Valid(t)
    ensures Grown(t, Accept(t, h).0)
  {
    AcceptValid(t, h);
    TipWorkRises(t, h);
    InsertedLeaf(t, h);
  }

  lemma {:induction false} AbsorbAllGrows(c: Chain, hs: seq<Header>, next: Option<Checkpoint>)
    requires Valid(c.tree)
    ensures Grown(c.tree, AbsorbAll(c, hs, next).chain.tree)
    decreases |hs|
  {
    if hs != [] {
      AcceptGrows(c.tree, hs[0]);
      AbsorbOneRequest(c, hs[0], next);
      AbsorbAllGrows(AbsorbOne(c, hs[0], next).chain, hs[1..], next);
    }
  }

  /** A batch moves the tip for good, to a header whose filter is not checked; or it leaves the
      tip and a finished scan alone. */
  ghost predicate BatchScan(t: Tree, t': Tree, moves: bool) {
    if moves then TipWork(t) < TipWork(t') && t'.tip.hash in t'.headers && !t'.headers[t'.tip.hash].checked
    else t'.tip.hash == t.tip.hash && (AllChecked(t) ==> AllChecked(t'))
  }

  lemma AcceptScan(t: Tree, h: Header)
    requires Valid(t)
    ensures BatchScan(t, Accept(t, h).0, MovesTip(t, h))
  {
    MovesTipIff(t, h);
    TipWorkRises(t, h);
    if MovesTip(t, h) {
      NewTipUnchecked(t, h);
    } else if AllChecked(t) {
      AcceptKeepsScanIff(t, h);
    }
  }

  lemma BatchScanTransitive(t: Tree, t': Tree, t'': Tree, moves: bool, moves': bool)
    requires Valid(t) && Grown(t, t') && Grown(t', t'') && BatchScan(t, t', moves) && BatchScan(t', t'', moves')
    ensures BatchScan(t, t'', moves || moves')
  {
  }

  lemma {:induction false} AbsorbAllScan(c: Chain, hs: seq<Header>, next: Option<Checkpoint>)
    requires Valid(c.tree)
    ensures BatchScan(c.tree, AbsorbAll(c, hs, next).chain.tree, BatchMovesTip(c, hs, next))
    decreases |hs|
  {
    if hs != [] {
      var a := AbsorbOne(c, hs[0], next);
      AcceptGrows(c.tree, hs[0]);
      AcceptScan(c.tree, hs[0]);
      AbsorbOneRequest(c, hs[0], next);
      if a.error == None {
        AbsorbAllScan(a.chain, hs[1..], next);
        AbsorbAllGrows(a.chain, hs[1..], next);
        var t'' := AbsorbAll(a.chain, hs[1..], next).chain.tree;
        BatchScanTransitive(c.tree, a.chain.tree, t'', MovesTip(c.tree, hs[0]), BatchMovesTip(a.chain, hs[1..], next));
      }
    }
  }

  /** The message is taken in, and a header of it moves the tip. */
  ghost predicate MessageMovesTip(c: Chain, hs: seq<Header>) {
    && hs != [] && hs[|hs| - 1].BlockHash() !in c.tree.headers && hs[|hs| - 1].BlockHash() != c.tree.tip.hash
    && SanityCheck(c.tree.net, hs) == None
    && BatchMovesTip(c, hs, NextCheckpoint(c))
  }

  /** A message undoes a finished scan exactly when one of its headers moves the tip, which it
      then does for good. */
  lemma MessageKeepsScanIff(c: Chain, hs: seq<Header>, fault: HeaderStores.Fault)
    requires Valid(c.tree)
    ensures var t' := SyncChain(c, hs, fault).0.tree;
            && (t'.tip.hash != c.tree.tip.hash <==> MessageMovesTip(c, hs))
            && (AllChecked(c.tree) ==> (AllChecked(t') <==> !MessageMovesTip(c, hs)))
  {
    var t' := SyncChain(c, hs, fault).0.tree;
    SyncChainTree(c, hs, fault);
    AbsorbAllScan(c, hs, NextCheckpoint(c));
    AbsorbAllGrows(c, hs, NextCheckpoint(c));
    if MessageMovesTip(c, hs) {
      assert Active(t', t'.tip.hash);
      MoreWorkIsAnotherTip(c.tree, t');
    }
  }

  lemma MoreWorkIsAnotherTip(t: Tree, t': Tree)
    requires Valid(t) && Grown(t, t') && TipWork(t) < TipWork(t')
    ensures t'.tip.hash != t.tip.hash
  {
    OriginNotStored(t');
  }

  ghost predicate Scanned(n: Client) {
    n.phase == FiltersSynced ==> AllChecked(n.chain.tree)
  }

  /** No header moves the tip while blocks are being downloaded. */
  ghost predicate Undisturbed(n: Client, input: Input) {
    n.phase == FiltersSynced && input.HeadersMessage? ==> !MessageMovesTip(n.chain, input.headers)
  }

  lemma SameFlagsKeepScan(t: Tree, t': Tree)
    requires SameShape(t, t') && AllChecked(t)
    requires forall x | x in t.headers && t.headers[x].checked :: t'.headers[x].checked
    ensures AllChecked(t')
  {
    forall x | Active(t', x) ensures t'.headers[x].checked {
      assert Active(t, x);
    }
  }

  lemma HandleHeadersKeepsScan(n: Client, hs: seq<Header>, fault: HeaderStores.Fault)
    requires Books(n) && AllChecked(n.chain.tree) && !MessageMovesTip(n.chain, hs)
    ensures AllChecked(HandleHeaders(n, hs, fault).0.chain.tree)
  {
    SyncChainKept(n.chain, hs, fault);
    NextStatefulKept(SyncChain(n.chain, hs, fault).0);
    MessageKeepsScanIff(n.chain, hs, fault);
  }

  lemma HandleCFHeadersKeepsScan(n: Client, peer: Peer, message: CFHeaders)
    requires Books(n) && AllChecked(n.chain.tree)
    ensures AllChecked(HandleCFHeaders(n, peer, message).0.chain.tree)
  {
    SyncCFHeadersAccounts(n.chain, peer, message);
    SyncCFHeadersShape(n.chain, peer, message);
    NextStatefulKept(SyncCFHeaders(n.chain, peer, message).0);
    SameFlagsKeepScan(n.chain.tree, SyncCFHeaders(n.chain, peer, message).0.tree);
  }

  lemma HandleFilterKeepsScan(n: Client, f: CFilter)
    requires AllChecked(n.chain.tree)
    ensures AllChecked(HandleFilter(n, f).0.chain.tree)
  {
    SyncFilterOnlyChecks(n.chain, f);
    SameFlagsKeepScan(n.chain.tree, SyncFilter(n.chain, f).0.tree);
  }

  lemma StepKeepsScanned(n: Client, input: Input)
    requires Books(n) && Scanned(n) && Undisturbed(n, input)
    ensures Scanned(Step(n, input).0)
  {
    if n.phase == FiltersSynced {
      match input
      case HeadersMessage(_, hs, fault) => HandleHeadersKeepsScan(n, hs, fault);
      case FilterHeadersMessage(peer, message) => HandleCFHeadersKeepsScan(n, peer, message);
      case FilterMessage(_, f) => HandleFilterKeepsScan(n, f);
      case _ =>
    }
  }

  ghost predicate UndisturbedRun(n: Client, inputs: seq<Input>)
    requires Books(n)
    decreases |inputs|
  {
    if inputs == [] then true
    else
      StepKeepsBooks(n, inputs[0]);
      Undisturbed(n, inputs[0]) && UndisturbedRun(Step(n, inputs[0]).0, inputs[1..])
  }

  lemma {:induction false} RunKeepsScanned(n: Client, inputs: seq<Input>)
    requires Books(n) && Scanned(n) && UndisturbedRun(n, inputs)
    ensures Scanned(RunAll(n, inputs))
    decreases |inputs|
  {
    if inputs != [] {
      StepKeepsBooks(n, inputs[0]);
      StepKeepsScanned(n, inputs[0]);
      RunKeepsScanned(Step(n, inputs[0]).0, inputs[1..]);
    }
  }

  // ---------- The promise of the `Synced` event ----------

  /** The header was assumed checked, or a filter with the committed hash was seen. */
  ghost predicate CheckedWithCause(c: Chain, x: Hash) {
    x in c.tree.headers && c.tree.headers[x].checked && Justified(c.log, x)
  }

  /** If the last check of its filter matched, the block was delivered after that check. */
  ghost predicate Settled(c: Chain, x: Hash) {
    forall i: nat | LastMatchedAt(c.log, x, i) :: DeliveredAfter(c.log, x, i) && Announced(c.events, x)
  }

  lemma DeliveredWasAnnounced(c: Chain, x: Hash, i: nat)
    requires Accounted(c) && DeliveredAfter(c.log, x, i)
    ensures Announced(c.events, x)
  {
    var j :| i < j < |c.log| && c.log[j] == Delivered(x);
    assert Announced(c.events, c.log[j].block);
  }

  /** The block was disconnected after its filter last matched and before it was delivered, and
      its filter was not checked again. */
  ghost predicate GivenUpSince(log: seq<Entry>, x: Hash, i: nat) {
    exists j :: i < j < |log| && log[j].Disconnected? && x in log[j].gone
                && forall k | i < k < j :: log[k] != Delivered(x)
  }

  ghost predicate GivenUp(log: seq<Entry>, x: Hash) {
    exists i: nat :: LastMatchedAt(log, x, i) && GivenUpSince(log, x, i)
  }

  lemma {:induction false} LostIffGivenUpSince(log: seq<Entry>, x: Hash, i: nat)
    requires LastMatchedAt(log, x, i) && NoLateDelivery(log)
    ensures Status(log, x) == Lost <==> GivenUpSince(log, x, i)
    decreases |log|
  {
    var n := |log| - 1;
    var front, last := log[..n], log[n];
    assert log == front + [last];
    StatusAfter(front, last, x);
    if i < n {
      assert LastMatchedAt(front, x, i);
      forall k | 0 <= k < |front| && front[k].Delivered? ensures Status(front[..k], front[k].block) != Lost {
        assert front[..k] == log[..k];
      }
      LostIffGivenUpSince(front, x, i);
      ClearMeansDelivered(front, x, i);
      GivenUpLater(front, last, x, i);
    }
  }

  /** One more entry gives a block up only if it disconnects it undelivered. */
  lemma GivenUpLater(log: seq<Entry>, e: Entry, x: Hash, i: nat)
    requires i < |log|
    ensures GivenUpSince(log + [e], x, i)
       <==> GivenUpSince(log, x, i) || (e.Disconnected? && x in e.gone && !DeliveredAfter(log, x, i))
  {
    var log' := log + [e];
    if GivenUpSince(log, x, i) {
      var j :| i < j < |log| && log[j].Disconnected? && x in log[j].gone && forall k | i < k < j :: log[k] != Delivered(x);
      assert log'[j] == log[j];
      assert forall k | i < k < j :: log'[k] == log[k];
    } else if e.Disconnected? && x in e.gone && !DeliveredAfter(log, x, i) {
      assert log'[|log|] == e;
      assert forall k | i < k < |log| :: log'[k] == log[k];
    }
    if GivenUpSince(log', x, i) {
      var j :| i < j < |log'| && log'[j].Disconnected? && x in log'[j].gone && forall k | i < k < j :: log'[k] != Delivered(x);
      if j < |log| {
        assert forall k | i < k < j :: log'[k] == log[k];
      } else {
        assert forall k | i < k < |log| :: log'[k] == log[k];
      }
    }
  }

  /** With nothing left in the queue, a block was delivered and announced after the last match
      of its filter if and only if it was not given up since. */
  lemma EmptyQueueSettlesIff(c: Chain, x: Hash)
    requires Accounted(c) && NoLateDelivery(c.log) && c.queue.want.None? && c.queue.queue == []
    ensures Settled(c, x) <==> !GivenUp(c.log, x)
  {
    assert !InQueue(c, x);
    forall i: nat | LastMatchedAt(c.log, x, i)
      ensures DeliveredAfter(c.log, x, i) && Announced(c.events, x) <==> !GivenUpSince(c.log, x, i)
    {
      ClearMeansDelivered(c.log, x, i);
      LostIffGivenUpSince(c.log, x, i);
      if DeliveredAfter(c.log, x, i) {
        DeliveredWasAnnounced(c, x, i);
      }
    }
  }

  /** What the user may rely on when told that the node is synced. */
  ghost predicate SyncPromise(c: Chain) {
    forall x | Active(c.tree, x) :: c.tree.headers[x].checked && Tied(c, x) && Settled(c, x)
  }

  ghost predicate NoneGivenUp(c: Chain) {
    forall x | Active(c.tree, x) :: !GivenUp(c.log, x)
  }

  /** The turn of the loop that tells the user about the sync. */
  ghost predicate AnnouncesSync(n: Client) {
    n.phase == FiltersSynced && AdvanceState(n).phase == TransactionsSynced
  }

  /** Over any run from the start in which no header moves the tip while blocks are downloading,
      each active header is checked when the node announces the sync, and a block whose filter
      matched was delivered if and only if it was not given up. If no reply untied a checked
      header, in particular if none gave one another filter hash, then each flag stands on what
      its header commits to now, and the promise is kept exactly if no active header's block was
      given up. The event names the tip and the last ten active headers. */
  lemma SyncedKeepsPromise(start: Client, inputs: seq<Input>)
    requires Started(start) && Books(start) && UndisturbedRun(start, inputs)
    requires AnnouncesSync(RunAll(start, inputs))
    ensures var before, after := RunAll(start, inputs).chain, AdvanceState(RunAll(start, inputs)).chain;
            var t := after.tree;
            && (forall x | Active(t, x) ::
                  CheckedWithCause(after, x) && (Settled(after, x) <==> !GivenUp(after.log, x)))
            && (RehashFreeRun(start, inputs) ==> FaithfulRun(start, inputs))
            && (FaithfulRun(start, inputs) ==> AllTied(after) && (SyncPromise(after) <==> NoneGivenUp(after)))
            && after.events == before.events + [Synced(t.tip.height, t.tip.hash, Recent(t.headers, t.tip.hash, 10))]
  {
    AnnouncedState(start, inputs);
    AnnouncementMeans(RunAll(start, inputs));
    StartedRehashFree(start, inputs);
    if FaithfulRun(start, inputs) {
      AnnouncedIsTied(start, inputs);
    }
  }

  lemma AnnouncementMeans(n: Client)
    requires AnnouncesSync(n) && Ready(AdvanceState(n).chain)
    ensures var before, after := n.chain, AdvanceState(n).chain;
            var t := after.tree;
            && (forall x | Active(t, x) ::
                  CheckedWithCause(after, x) && (Settled(after, x) <==> !GivenUp(after.log, x)))
            && (AllTied(after) ==> (SyncPromise(after) <==> NoneGivenUp(after)))
            && after.events == before.events + [Synced(t.tip.height, t.tip.hash, Recent(t.headers, t.tip.hash, 10))]
  {
    ReadyMeans(AdvanceState(n).chain);
    if AllTied(AdvanceState(n).chain) {
      ReadyPromiseIff(AdvanceState(n).chain);
    }
  }

  lemma StartedRehashFree(start: Client, inputs: seq<Input>)
    requires Started(start) && Books(start)
    ensures RehashFreeRun(start, inputs) ==> FaithfulRun(start, inputs)
  {
    StartIsTied(start);
    if RehashFreeRun(start, inputs) {
      RehashFreeRunIsFaithful(start, inputs);
    }
  }

  /** All filters are checked, and no block waits. */
  ghost predicate Ready(c: Chain) {
    && Accounted(c) && NoLateDelivery(c.log) && AllChecked(c.tree)
    && c.queue.want == None && c.queue.queue == []
  }

  lemma ReadyMeans(c: Chain)
    requires Ready(c)
    ensures forall x | Active(c.tree, x) :: CheckedWithCause(c, x) && (Settled(c, x) <==> !GivenUp(c.log, x))
  {
    forall x | Active(c.tree, x) ensures CheckedWithCause(c, x) && (Settled(c, x) <==> !GivenUp(c.log, x)) {
      EmptyQueueSettlesIff(c, x);
    }
  }

  lemma ReadyPromiseIff(c: Chain)
    requires Ready(c) && AllTied(c)
    ensures SyncPromise(c) <==> NoneGivenUp(c)
  {
    ReadyMeans(c);
  }

  lemma AnnouncedIsTied(start: Client, inputs: seq<Input>)
    requires Started(start) && Books(start) && FaithfulRun(start, inputs)
    ensures AllTied(AdvanceState(RunAll(start, inputs)).chain)
  {
    StartIsTied(start);
    RunKeepsTied(start, inputs);
    StepKeepsTiedIff(RunAll(start, inputs), Advance(false));
  }

  /** What holds when the sync is announced. */
  lemma AnnouncedState(start: Client, inputs: seq<Input>)
    requires Started(start) && Books(start) && UndisturbedRun(start, inputs)
    requires AnnouncesSync(RunAll(start, inputs))
    ensures Ready(AdvanceState(RunAll(start, inputs)).chain)
  {
    RunKeepsScanned(start, inputs);
    StartKeepsLedger(start);
    RunKeepsLedger(start, inputs);
    AnnouncedReady(RunAll(start, inputs));
  }

  lemma AnnouncedReady(n: Client)
    requires Books(n) && Scanned(n) && Ledger(n.chain) && AnnouncesSync(n)
    ensures Ready(AdvanceState(n).chain)
  {
    AdvanceKept(n);
    AdvanceLedger(n);
  }

  /** Without the hypotheses, a header that arrives while the last blocks are downloaded is
      announced as synced although its filter was never looked at. */
  lemma LateHeaderIsNotScanned(n: Client, peer: Peer, h: Header)
    requires Books(n) && n.phase == FiltersSynced && n.chain.queue.want.None? && n.chain.queue.queue == []
    requires h.BlockHash() !in n.chain.tree.headers && h.BlockHash() != n.chain.tree.tip.hash
    requires SanityCheck(n.chain.tree.net, [h]) == None && n.chain.checkpoints == []
    requires Accept(n.chain.tree, h).1.Accepted?
    ensures var n1 := Step(n, HeadersMessage(peer, [h], HeaderStores.NoFault)).0;
            AdvanceState(n1).phase == TransactionsSynced && !AllChecked(AdvanceState(n1).chain.tree)
  {
    var c := n.chain;
    var a := AbsorbOne(c, h, None);
    AbsorbSingle(c, h);
    var c1 := SyncChain(c, [h], HeaderStores.NoFault).0;
    assert c1.tree == Accept(c.tree, h).0 && c1.queue == c.queue;
    SyncChainKept(c, [h], HeaderStores.NoFault);
    NextStatefulKept(c1);
    TipWorkRises(c.tree, h);
    NewTipUnchecked(c.tree, h);
  }

  lemma AbsorbSingle(c: Chain, h: Header)
    requires Accept(c.tree, h).1.Accepted?
    ensures AbsorbAll(c, [h], None) == AbsorbOne(c, h, None)
    ensures AbsorbOne(c, h, None).error == None && AbsorbOne(c, h, None).chain.queue == c.queue
    ensures AbsorbOne(c, h, None).chain.tree == Accept(c.tree, h).0
  {
    assert [h][1..] == [];
  }

  /** A rescan makes every active header due again, and starts with the lowest of them. */
  lemma RescanStartsOver(n: Client)
    requires Valid(n.chain.tree) && n.chain.tree.headers != map[]
    requires n.phase != Behind && n.phase != HeadersSynced
    ensures var (n', reply) := RescanFilters(n);
            && n'.phase == FilterHeadersSynced && PrefixChecked(n'.chain.tree)
            && (forall x | Active(n'.chain.tree, x) :: !n'.chain.tree.headers[x].checked)
            && reply.Some? && reply.value.GetFilters?
            && reply.value.filters.startHeight == n.chain.tree.origin.height + 1
  {
    var c := ClearFilters(n.chain);
    BlockTreesReset(n.chain.tree);
    forall x | Active(c.tree, x) ensures !c.tree.headers[x].checked {
      assert Active(n.chain.tree, x);
      ResetKeepsFlagIff(n.chain.tree, x);
    }
    assert Placed(n.chain.tree, n.chain.tree.tip.hash);
    assert Active(c.tree, c.tree.tip.hash);
    NextFilterStartsLowestIff(c);
    var root := AtHeight(c.tree, c.tree.origin.height + 1);
    assert Active(c.tree, root);
  }
}
