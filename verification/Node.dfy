/** The node and its handlers, proved against the steps in NodeState.dfy. */
module Nodes {
  import opened Hashes
  import opened FilterHeaders
  import opened ChainState
  import opened NodeState
  import opened Monitors
  import opened HeaderStores
  import ChainLoad
  import NodeRuns
  import Chains

  class Node {
    var phase: Phase
    const chain: Chains.Chain

    ghost function Repr(): set<object>
      reads this, chain
    {
      {this} + chain.Repr()
    }

    ghost function View(): Client
      reads this, chain, chain.Repr()
    {
      Client(phase, chain.View())
    }

    ghost predicate Valid()
      reads this, chain, chain.Repr()
    {
      this !in chain.Repr() && chain.Valid()
    }

    constructor (chain: Chains.Chain)
      requires chain.Valid()
      ensures this.chain == chain && phase == Behind && Valid()
      ensures chain.View() == old(chain.View()) && Repr() == {this} + old(chain.Repr())
    {
      phase, this.chain := Behind, chain;
    }

    // ---------- Turns ----------

    /** Load the stored headers when the node starts. */
    method FetchHeaders() returns (error: Option<ChainLoad.LoadError>, ghost hi: nat)
      requires Valid()
      modifies Repr()
      ensures ChainLoad.NothingAbove(chain.db.table, hi)
      ensures (chain.View(), error) == ChainLoad.LoadHeaders(old(chain.View()), hi + 1)
      ensures Valid() && phase == old(phase) && fresh(Repr() - old(Repr()))
      ensures error.None? && phase == Behind && NodeRuns.Fresh(old(chain.View())) ==> NodeRuns.Started(View())
    {
      error, hi := chain.LoadHeaders();
    }

    /** Try to go on to the next phase. */
    method AdvanceState(stale: bool) returns (reply: Option<Reply>)
      requires Valid()
      modifies this`phase, chain`events
      ensures (View(), reply) == Step(old(View()), Advance(stale))
      ensures Valid()
    {
      reply := None;
      match phase
      case Behind =>
        var synced := chain.IsSynced();
        if synced {
          phase := HeadersSynced;
        }
      case HeadersSynced =>
        var synced := chain.headerChain.FilterHeadersSynced();
        if synced {
          phase := FilterHeadersSynced;
        }
      case FilterHeadersSynced =>
        var synced := chain.headerChain.FiltersSynced();
        if synced {
          phase := FiltersSynced;
        }
      case FiltersSynced =>
        if chain.blockQueue.Complete() {
          phase := TransactionsSynced;
          chain.SendSynced();
        }
      case TransactionsSynced =>
        reply := if stale then Some(Disconnect) else None;
    }

    /** Ask for the next block that may be of interest. */
    method PopBlockQueue(now: nat) returns (reply: Option<Reply>)
      requires Valid()
      modifies Repr()
      ensures (View(), reply) == Step(old(View()), PopQueue(now))
      ensures Valid() && Repr() == old(Repr())
    {
      reply := None;
      if phase == FilterHeadersSynced || phase == FiltersSynced {
        var next := chain.NextBlock(now);
        if next.Some? {
          reply := Some(GetBlock(next.value));
        }
      }
    }

    /** What to ask for next, headers first, then filter headers, then filters. */
    method NextStatefulMessage() returns (reply: Option<Reply>)
      requires Valid()
      modifies chain`lastFilterHeaderRequest, chain`lastFilterRequest
      ensures (chain.View(), reply) == NodeState.NextStatefulMessage(old(chain.View()))
      ensures Valid() && phase == old(phase)
    {
      var synced := chain.IsSynced();
      if !synced {
        var locators := chain.headerChain.Locators();
        return Some(GetHeaders(locators));
      }
      synced := chain.headerChain.FilterHeadersSynced();
      if !synced {
        var request := chain.NextCFHeaderMessage();
        return Some(GetFilterHeaders(request));
      }
      synced := chain.headerChain.FiltersSynced();
      if !synced {
        var request := chain.NextFilterMessage();
        return Some(GetFilters(request));
      }
      reply := None;
    }

    // ---------- Messages ----------

    /** Keep the height of a new peer, and turn the peer away or ask it for headers. */
    method HandleVersion(peer: Peer, height: nat, version: Version) returns (reply: Option<Reply>)
      requires Valid()
      modifies chain.heights
      ensures (View(), reply) == Step(old(View()), VersionMessage(peer, height, version))
      ensures Valid()
    {
      chain.heights.Insert(peer, height);
      if version.protocol < WTXID_VERSION {
        return Some(Disconnect);
      }
      if phase != Behind && (!version.compactFilters || !version.network) {
        return Some(Disconnect);
      }
      var locators := chain.headerChain.Locators();
      reply := Some(GetHeaders(locators));
    }

    method RetainPeers(live: set<Peer>)
      requires Valid()
      modifies chain.heights
      ensures View() == Step(old(View()), PeersLeft(live)).0
      ensures Valid()
    {
      chain.heights.Retain(live);
    }

    method HandleHeaders(peer: Peer, headers: seq<Header>, fault: Fault) returns (reply: Option<Reply>)
      requires Valid()
      modifies Repr()
      ensures (View(), reply) == Step(old(View()), HeadersMessage(peer, headers, fault))
      ensures Valid() && Repr() == old(Repr())
    {
      var error := chain.SyncChain(headers, fault);
      var synced := chain.IsSynced();
      if error.Some? && (error.value != EmptyMessage || !synced) {
        reply := Some(Disconnect);
      } else {
        reply := NextStatefulMessage();
      }
    }

    method HandleCFHeaders(peer: Peer, cfHeaders: CFHeaders) returns (reply: Option<Reply>)
      requires Valid()
      modifies Repr()
      ensures (View(), reply) == Step(old(View()), FilterHeadersMessage(peer, cfHeaders))
      ensures Valid() && Repr() == old(Repr())
    {
      var result := chain.SyncCFHeaders(peer, cfHeaders);
      match result
      case CFHeaderError(_) => reply := Some(Disconnect);
      case Counted(outcome) =>
        match outcome
        case AddedToQueue => reply := None;
        case Conflict => reply := Some(Disconnect);
        case Extended => reply := NextStatefulMessage();
    }

    method HandleFilter(peer: Peer, filter: CFilter) returns (reply: Option<Reply>)
      requires Valid()
      modifies Repr()
      ensures (View(), reply) == Step(old(View()), FilterMessage(peer, filter))
      ensures Valid() && Repr() == old(Repr())
    {
      var result := chain.SyncFilter(filter);
      match result
      case FilterError(_) => reply := Some(Disconnect);
      case FilterOk(next) => reply := if next.Some? then Some(GetFilters(next.value)) else None;
    }

    method HandleBlock(peer: Peer, block: Block) returns (reply: Option<Reply>)
      requires Valid()
      modifies Repr()
      ensures (View(), reply) == Step(old(View()), BlockMessage(peer, block))
      ensures Valid() && Repr() == old(Repr())
    {
      var error := chain.CheckSendBlock(block);
      reply := if error.Some? then Some(Disconnect) else None;
    }

    /** New blocks raise the height of the peer, and unknown ones send the node back to headers. */
    method HandleInventoryBlocks(peer: Peer, blocks: seq<Hash>) returns (reply: Option<Reply>)
      requires Valid()
      modifies Repr()
      ensures (View(), reply) == Step(old(View()), Inventory(peer, blocks))
      ensures Valid() && Repr() == old(Repr())
    {
      var news := CountBlocks(peer, blocks);
      reply := None;
      if phase != Behind && news {
        phase := Behind;
        var locators := chain.headerChain.Locators();
        chain.ClearCompactFilterQueue();
        reply := Some(GetHeaders(locators));
      }
    }

    /** Raise the height of the peer once for each block, and look for a block not known. */
    method CountBlocks(peer: Peer, blocks: seq<Hash>) returns (news: bool)
      requires Valid()
      modifies chain.heights
      ensures View() == old(View()).(chain := old(chain.View()).(
                          heights := Increments(old(chain.heights.heights), peer, |blocks|)))
      ensures news <==> exists x :: x in blocks && !Contains(chain.headerChain.View(), x)
      ensures Valid()
    {
      news := false;
      for i := 0 to |blocks|
        invariant Valid() && chain.heights.heights == Increments(old(chain.heights.heights), peer, i)
        invariant news <==> exists j :: 0 <= j < i && !Contains(chain.headerChain.View(), blocks[j])
      {
        IncrementsSplit(old(chain.heights.heights), peer, i);
        chain.heights.Increment(peer);
        news := news || !chain.headerChain.Contains(blocks[i]);
      }
    }

    // ---------- The client ----------

    method PutScript(script: Script)
      requires Valid()
      modifies chain`scripts
      ensures View() == Step(old(View()), AddScript(script)).0
      ensures Valid()
    {
      chain.PutScript(script);
    }

    /** Make every filter due again and ask for the first of them. */
    method RescanFilters() returns (reply: Option<Reply>)
      requires Valid()
      modifies Repr()
      ensures (View(), reply) == Step(old(View()), Rescan)
      ensures Valid() && Repr() == old(Repr())
    {
      if phase == Behind || phase == HeadersSynced {
        return None;
      }
      chain.ClearFilters();
      phase := FilterHeadersSynced;
      var request := chain.NextFilterMessage();
      reply := Some(GetFilters(request));
    }

    // ---------- The loop ----------

    /** One turn of the loop, or one message. */
    method Handle(input: Input) returns (reply: Option<Reply>)
      requires Valid()
      modifies Repr()
      ensures (View(), reply) == Step(old(View()), input)
      ensures Valid() && Repr() == old(Repr())
    {
      reply := None;
      match input
      case Advance(stale) => reply := AdvanceState(stale);
      case PopQueue(now) => reply := PopBlockQueue(now);
      case HeadersMessage(peer, headers, fault) => reply := HandleHeaders(peer, headers, fault);
      case FilterHeadersMessage(peer, cfHeaders) => reply := HandleCFHeaders(peer, cfHeaders);
      case FilterMessage(peer, filter) => reply := HandleFilter(peer, filter);
      case BlockMessage(peer, block) => reply := HandleBlock(peer, block);
      case Inventory(peer, blocks) => reply := HandleInventoryBlocks(peer, blocks);
      case VersionMessage(peer, height, version) => reply := HandleVersion(peer, height, version);
      case PeersLeft(live) => RetainPeers(live);
      case AddScript(script) => PutScript(script);
      case Rescan => reply := RescanFilters();
    }

    /** Turn after turn, the node goes where the run of its steps goes. */
    method Run(inputs: seq<Input>)
      requires Valid() && NodeRuns.Books(View())
      modifies Repr()
      ensures View() == NodeRuns.RunAll(old(View()), inputs)
      ensures Valid() && NodeRuns.Books(View()) && Repr() == old(Repr())
    {
      ghost var start := View();
      assert inputs[0..] == inputs;
      for i := 0 to |inputs|
        invariant Valid() && NodeRuns.Books(View()) && Repr() == old(Repr())
        invariant NodeRuns.RunAll(View(), inputs[i..]) == NodeRuns.RunAll(start, inputs)
      {
        assert inputs[i..][1..] == inputs[i + 1..];
        NodeRuns.StepKeepsBooks(View(), inputs[i]);
        var _ := Handle(inputs[i]);
      }
    }
  }
}
