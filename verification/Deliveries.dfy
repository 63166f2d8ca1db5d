/** Over whole runs, a block is announced at most once for each time that its filter matched. */
module Deliveries {
  import opened Commons
  import opened Hashes
  import opened Graph
  import opened GraphInvariant
  import opened FilterHeaders
  import opened FilterHeaderChain
  import opened ChainState
  import opened ChainInvariant
  import opened NodeState
  import opened NodeRuns
  import ChainLoad
  import HeaderStores
  import BlockQueues

  // ---------- Counting ----------

  /** How often the filter of `x` was checked and matched. */
  ghost function Matches(log: seq<Entry>, x: Hash): nat
    decreases |log|
  {
    if log == [] then 0
    else
      var n := |log| - 1;
      Matches(log[..n], x) + if log[n].Checked? && log[n].hash == x && log[n].matched then 1 else 0
  }

  /** How often the block of `x` was delivered. */
  ghost function Received(log: seq<Entry>, x: Hash): nat
    decreases |log|
  {
    if log == [] then 0
    else
      var n := |log| - 1;
      Received(log[..n], x) + if log[n] == Delivered(x) then 1 else 0
  }

  /** How often the user was given the block of `x`. */
  ghost function Announcements(events: seq<Event>, x: Hash): nat
    decreases |events|
  {
    if events == [] then 0
    else
      var n := |events| - 1;
      Announcements(events[..n], x) + if events[n].BlockFound? && events[n].hash == x then 1 else 0
  }

  ghost function Waiting(q: BlockQueues.Queue, x: Hash): nat {
    if x in BlockQueues.Line(q) then 1 else 0
  }

  /** No block is delivered after its download was given up. */
  ghost predicate NoLateDelivery(log: seq<Entry>) {
    forall k | 0 <= k < |log| && log[k].Delivered? :: Status(log[..k], log[k].block) != Lost
  }

  /** The queue has no repeats and no block that was given up; for each block, deliveries and a
      place in the queue are covered by matches; and each delivery is one announcement. */
  ghost predicate Balanced(q: BlockQueues.Queue, log: seq<Entry>, events: seq<Event>) {
    && BlockQueues.NoRepeats(BlockQueues.Line(q))
    && NoLateDelivery(log)
    && (forall x | x in BlockQueues.Line(q) :: Status(log, x) != Lost)
    && (forall x :: Received(log, x) + Waiting(q, x) <= Matches(log, x))
    && (forall x :: Announcements(events, x) == Received(log, x))
  }

  /** Every announced block has a stored header, at the announced height. */
  ghost predicate Located(t: Tree, events: seq<Event>) {
    forall i | 0 <= i < |events| && events[i].BlockFound? ::
      events[i].hash in t.headers && t.headers[events[i].hash].height == events[i].height
  }

  ghost predicate Ledger(c: Chain) {
    Balanced(c.queue, c.log, c.events) && Located(c.tree, c.events)
  }

  lemma OneMoreEntry(log: seq<Entry>, e: Entry, x: Hash)
    ensures Matches(log + [e], x) == Matches(log, x) + if e.Checked? && e.hash == x && e.matched then 1 else 0
    ensures Received(log + [e], x) == Received(log, x) + if e == Delivered(x) then 1 else 0
  {
    assert (log + [e])[..|log|] == log;
  }

  lemma OneMoreInTime(log: seq<Entry>, e: Entry)
    requires NoLateDelivery(log) && (e.Delivered? ==> Status(log, e.block) != Lost)
    ensures NoLateDelivery(log + [e])
  {
    var log' := log + [e];
    forall k | 0 <= k < |log'| && log'[k].Delivered? ensures Status(log'[..k], log'[k].block) != Lost {
      assert log'[..k] == log[..k];
      if k == |log| {
        assert log[..k] == log;
      }
    }
  }

  lemma OneMoreEvent(events: seq<Event>, e: Event, x: Hash)
    ensures Announcements(events + [e], x) == Announcements(events, x) + if e.BlockFound? && e.hash == x then 1 else 0
  {
    assert (events + [e])[..|events|] == events;
  }

  // ---------- What the operations do to the balance ----------

  lemma SilentEvent(q: BlockQueues.Queue, log: seq<Entry>, events: seq<Event>, e: Event)
    requires Balanced(q, log, events) && !e.BlockFound?
    ensures Balanced(q, log, events + [e])
  {
    forall x ensures Announcements(events + [e], x) == Received(log, x) {
      OneMoreEvent(events, e, x);
    }
  }

  lemma RemoveBalances(q: BlockQueues.Queue, log: seq<Entry>, events: seq<Event>, gone: seq<Hash>)
    requires Balanced(q, log, events)
    ensures Balanced(BlockQueues.Remove(q, gone), log + [Disconnected(gone)], events)
  {
    BlockQueues.RemoveFilters(q, gone);
    var log' := log + [Disconnected(gone)];
    forall x ensures Waiting(BlockQueues.Remove(q, gone), x) <= Waiting(q, x)
      && (x in BlockQueues.Line(BlockQueues.Remove(q, gone)) ==> Status(log', x) != Lost)
    {
      BlockQueues.RetainMember(BlockQueues.Line(q), gone, x);
      StatusAfter(log, Disconnected(gone), x);
    }
    OneMoreInTime(log, Disconnected(gone));
    forall x ensures Matches(log', x) == Matches(log, x) && Received(log', x) == Received(log, x) {
      OneMoreEntry(log, Disconnected(gone), x);
    }
  }

  lemma CountsAfterCheck(log: seq<Entry>, e: Entry, x: Hash)
    requires e.Checked?
    ensures Received(log + [e], x) == Received(log, x)
    ensures Matches(log + [e], x) == Matches(log, x) + if e.hash == x && e.matched then 1 else 0
    ensures Status(log, x) != Lost || x == e.hash ==> Status(log + [e], x) != Lost
  {
    OneMoreEntry(log, e, x);
    StatusAfter(log, e, x);
  }

  lemma CheckBalances(q: BlockQueues.Queue, log: seq<Entry>, events: seq<Event>, e: Entry)
    requires Balanced(q, log, events) && e.Checked?
    ensures Balanced(if e.matched then BlockQueues.Add(q, e.hash) else q, log + [e], events)
  {
    BlockQueues.AddAppends(q, e.hash);
    var q', log' := if e.matched then BlockQueues.Add(q, e.hash) else q, log + [e];
    OneMoreInTime(log, e);
    forall x ensures Received(log', x) + Waiting(q', x) <= Matches(log', x) && Announcements(events, x) == Received(log', x)
      && (x in BlockQueues.Line(q') ==> Status(log', x) != Lost)
    {
      CountsAfterCheck(log, e, x);
      assert Received(log, x) + Waiting(q, x) <= Matches(log, x);
    }
  }

  lemma DeliveryBalances(q: BlockQueues.Queue, log: seq<Entry>, events: seq<Event>, x: Hash, height: nat)
    requires Balanced(q, log, events) && q.want == Some(x)
    ensures Balanced(BlockQueues.Receive(q, x), log + [Delivered(x)], events + [BlockFound(x, height)])
  {
    var q', log', events' := BlockQueues.Receive(q, x), log + [Delivered(x)], events + [BlockFound(x, height)];
    BlockQueues.ReceiveRemovesWantedHead(q, x);
    BlockQueues.InLine(q, x);
    forall y ensures Received(log', y) + Waiting(q', y) <= Matches(log', y)
      && Announcements(events', y) == Received(log', y)
      && (y in BlockQueues.Line(q') ==> Status(log', y) != Lost)
    {
      OneMoreEntry(log, Delivered(x), y);
      StatusAfter(log, Delivered(x), y);
      OneMoreEvent(events, BlockFound(x, height), y);
      assert Received(log, y) + Waiting(q, y) <= Matches(log, y);
      if y != x {
        BlockQueues.InLine(q, y);
        BlockQueues.InLine(q', y);
      }
    }
    OneMoreInTime(log, Delivered(x));
  }

  // ---------- The chain ----------

  lemma HeadersStay(t: Tree, t': Tree, events: seq<Event>)
    requires Located(t, events)
    requires forall x | x in t.headers :: x in t'.headers && t'.headers[x].height == t.headers[x].height
    ensures Located(t', events)
  {
  }

  lemma OneMoreLocated(t: Tree, events: seq<Event>, e: Event)
    requires Located(t, events)
    requires e.BlockFound? ==> e.hash in t.headers && t.headers[e.hash].height == e.height
    ensures Located(t, events + [e])
  {
  }

  lemma AbsorbOneLedger(c: Chain, h: Header, next: Option<Checkpoint>)
    requires Valid(c.tree) && Ledger(c)
    ensures Ledger(AbsorbOne(c, h, next).chain)
  {
    var c', changes := AbsorbOne(c, h, next).chain, Accept(c.tree, h).1;
    AbsorbOneBooks(c, h, next);
    InsertedLeaf(c.tree, h);
    HeadersStay(c.tree, c'.tree, c.events);
    if changes.Reorganization? {
      var gone, e := BlockHashes(changes.disconnected), BlocksDisconnected(Reversed(changes.disconnected));
      RemoveBalances(c.queue, c.log, c.events, gone);
      SilentEvent(c'.queue, c'.log, c.events, e);
      OneMoreLocated(c'.tree, c.events, e);
    }
  }

  lemma {:induction false} AbsorbAllLedger(c: Chain, hs: seq<Header>, next: Option<Checkpoint>)
    requires Valid(c.tree) && Ledger(c)
    ensures Ledger(AbsorbAll(c, hs, next).chain)
    decreases |hs|
  {
    if hs != [] {
      AbsorbOneLedger(c, hs[0], next);
      AbsorbOneRequest(c, hs[0], next);
      AcceptValid(c.tree, hs[0]);
      AbsorbAllLedger(AbsorbOne(c, hs[0], next).chain, hs[1..], next);
    }
  }

  /** The queue, the history and the events are untouched, and no header moves. */
  ghost predicate SameLedger(c: Chain, c': Chain) {
    && c'.queue == c.queue && c'.log == c.log && c'.events == c.events
    && forall x | x in c.tree.headers :: x in c'.tree.headers && c'.tree.headers[x].height == c.tree.headers[x].height
  }

  lemma SameLedgerKeeps(c: Chain, c': Chain)
    requires Ledger(c) && SameLedger(c, c')
    ensures Ledger(c')
  {
    HeadersStay(c.tree, c'.tree, c.events);
  }

  lemma SyncChainLedger(c: Chain, hs: seq<Header>, fault: HeaderStores.Fault)
    requires Valid(c.tree) && Ledger(c)
    ensures Ledger(SyncChain(c, hs, fault).0)
  {
    var c', a := SyncChain(c, hs, fault).0, AbsorbAll(c, hs, NextCheckpoint(c)).chain;
    AbsorbAllLedger(c, hs, NextCheckpoint(c));
    if c' != c {
      SameLedgerKeeps(a, c');
    }
  }

  lemma CheckOffLedger(c: Chain, f: CFilter)
    requires Valid(c.tree) && Ledger(c) && Checkable(c, f)
    ensures Ledger(CheckOff(c, f))
  {
    var x, c', node := f.blockHash, CheckOff(c, f), c.tree.headers[f.blockHash];
    if !node.checked {
      var matched := c.matcher(f.contents, x, c.scripts) == Some(true);
      CheckBalances(c.queue, c.log, c.events, Checked(x, f.contents, node.commitment.value, matched));
      HeadersStay(c.tree, c'.tree, c.events);
    }
  }

  lemma SyncFilterLedger(c: Chain, f: CFilter)
    requires Valid(c.tree) && Ledger(c)
    ensures Ledger(SyncFilter(c, f).0)
  {
    SyncFilterParts(c, f);
    if Checkable(c, f) {
      CheckOffLedger(c, f);
      SameLedgerKeeps(CheckOff(c, f), NextFilterMessage(CheckOff(c, f)).0);
    }
  }

  lemma CheckSendBlockLedger(c: Chain, b: Block)
    requires Ledger(c)
    ensures Ledger(CheckSendBlock(c, b).0)
  {
    var c', x := CheckSendBlock(c, b).0, b.header.BlockHash();
    if c' != c {
      var height := c.tree.headers[x].height;
      DeliveryBalances(c.queue, c.log, c.events, x, height);
      OneMoreLocated(c.tree, c.events, BlockFound(x, height));
    }
  }

  // ---------- The node ----------

  lemma NextStatefulSameLedger(c: Chain)
    ensures SameLedger(c, NextStatefulMessage(c).0)
  {
  }

  lemma HandleHeadersLedger(n: Client, hs: seq<Header>, fault: HeaderStores.Fault)
    requires Valid(n.chain.tree) && Ledger(n.chain)
    ensures Ledger(HandleHeaders(n, hs, fault).0.chain)
  {
    var c := SyncChain(n.chain, hs, fault).0;
    SyncChainLedger(n.chain, hs, fault);
    NextStatefulSameLedger(c);
    SameLedgerKeeps(c, NextStatefulMessage(c).0);
  }

  lemma SyncCFHeadersSameLedger(c: Chain, peer: Peer, message: CFHeaders)
    requires Kept(c)
    ensures SameLedger(c, SyncCFHeaders(c, peer, message).0)
  {
    SyncCFHeadersShape(c, peer, message);
  }

  lemma HandleCFHeadersLedger(n: Client, peer: Peer, message: CFHeaders)
    requires Books(n) && Ledger(n.chain)
    ensures Ledger(HandleCFHeaders(n, peer, message).0.chain)
  {
    var c := SyncCFHeaders(n.chain, peer, message).0;
    SyncCFHeadersSameLedger(n.chain, peer, message);
    SameLedgerKeeps(n.chain, c);
    NextStatefulSameLedger(c);
    SameLedgerKeeps(c, NextStatefulMessage(c).0);
  }

  lemma RescanLedger(n: Client)
    requires Books(n) && Ledger(n.chain)
    ensures Ledger(RescanFilters(n).0.chain)
  {
    BlockTreesReset(n.chain.tree);
    SameLedgerKeeps(n.chain, ClearFilters(n.chain));
    SameLedgerKeeps(ClearFilters(n.chain), NextFilterMessage(ClearFilters(n.chain)).0);
  }

  lemma PopLedger(n: Client, now: nat)
    requires Ledger(n.chain)
    ensures Ledger(PopBlockQueue(n, now).0.chain)
  {
    BlockQueues.PopRequestsHead(n.chain.queue, now);
  }

  lemma AdvanceLedger(n: Client)
    requires Ledger(n.chain)
    ensures Ledger(AdvanceState(n).chain)
  {
    var c, c' := n.chain, AdvanceState(n).chain;
    if c' != c {
      var e := c'.events[|c.events|];
      assert c'.events == c.events + [e];
      SilentEvent(c.queue, c.log, c.events, e);
      OneMoreLocated(c.tree, c.events, e);
    }
  }

  lemma OtherStepsSameLedger(n: Client, input: Input)
    requires Books(n)
    requires input.Inventory? || input.VersionMessage? || input.PeersLeft? || input.AddScript?
    ensures SameLedger(n.chain, Step(n, input).0.chain)
  {
  }

  ghost predicate IsDataMessage(input: Input) {
    input.HeadersMessage? || input.FilterHeadersMessage? || input.FilterMessage? || input.BlockMessage?
  }

  lemma MessageKeepsLedger(n: Client, input: Input)
    requires Books(n) && Ledger(n.chain) && IsDataMessage(input)
    ensures Ledger(Step(n, input).0.chain)
  {
    match input
    case HeadersMessage(_, hs, fault) => HandleHeadersLedger(n, hs, fault);
    case FilterHeadersMessage(peer, message) => HandleCFHeadersLedger(n, peer, message);
    case FilterMessage(_, f) => SyncFilterLedger(n.chain, f);
    case BlockMessage(_, b) => CheckSendBlockLedger(n.chain, b);
  }

  lemma StepKeepsLedger(n: Client, input: Input)
    requires Books(n) && Ledger(n.chain)
    ensures Ledger(Step(n, input).0.chain)
  {
    if IsDataMessage(input) {
      MessageKeepsLedger(n, input);
    } else if input.Advance? {
      AdvanceLedger(n);
    } else if input.PopQueue? {
      PopLedger(n, input.now);
    } else if input.Rescan? {
      RescanLedger(n);
    } else {
      OtherStepsSameLedger(n, input);
      SameLedgerKeeps(n.chain, Step(n, input).0.chain);
    }
  }

  lemma {:induction false} RunKeepsLedger(n: Client, inputs: seq<Input>)
    requires Books(n) && Ledger(n.chain)
    ensures Ledger(RunAll(n, inputs).chain)
    decreases |inputs|
  {
    if inputs != [] {
      StepKeepsBooks(n, inputs[0]);
      StepKeepsLedger(n, inputs[0]);
      RunKeepsLedger(Step(n, inputs[0]).0, inputs[1..]);
    }
  }

  /** In any run from the start, whatever peers send, the user is given a block at most as often
      as its filter matched, a block that waits is one match short of that, and every block
      comes with the height of its stored header. */
  lemma AnnouncedAtMostOncePerMatch(start: Client, inputs: seq<Input>, x: Hash)
    requires Started(start) && Books(start)
    ensures var c := RunAll(start, inputs).chain;
            && Announcements(c.events, x) + (if InQueue(c, x) then 1 else 0) <= Matches(c.log, x)
            && Located(c.tree, c.events)
  {
    StartKeepsLedger(start);
    RunKeepsLedger(start, inputs);
    BlockQueues.InLine(RunAll(start, inputs).chain.queue, x);
  }

  lemma StartKeepsLedger(start: Client)
    requires Started(start)
    ensures Ledger(start.chain)
  {
    var c, hi :| Fresh(c) && ChainLoad.LoadHeaders(c, hi) == (start.chain, None);
    LoadedParts(c, ChainLoad.BaseTree(c), hi);
    StartedLedger(start.chain);
  }

  lemma StartedLedger(c: Chain)
    requires c.queue.queue == [] && c.queue.want == None && c.events == []
    requires |c.log| == 1 && c.log[0].Assumed?
    ensures Ledger(c)
  {
    forall x ensures Received(c.log, x) == 0 && Waiting(c.queue, x) == 0 {
      OneMoreEntry([], c.log[0], x);
      assert c.log == [] + [c.log[0]];
    }
  }
}
