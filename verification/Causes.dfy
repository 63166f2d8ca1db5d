/** Where everything in a run comes from: each event, each entry of the history and each stored
    header is traced to the one input that caused it. */
module Causes {
  import opened Hashes
  import opened Graph
  import opened GraphFilters
  import opened GraphInvariant
  import opened FilterHeaders
  import opened FilterHeaderChain
  import opened ChainState
  import opened ChainInvariant
  import opened NodeState
  import opened NodeRuns
  import opened NodeMoves
  import opened HeaderMessages
  import opened Findings
  import HeaderStores

  // ---------- What one input adds ----------

  /** A found block came in a message, was wanted, stored and had its transactions; headers were
      disconnected by a message of headers; and the sync is announced by a turn with an empty
      queue, for the tip. */
  ghost predicate Causes(n: Client, input: Input, e: Event) {
    match e
    case BlockFound(x, height) =>
      && input.BlockMessage? && input.block.header.BlockHash() == x && Welcome(n.chain, input.block)
      && height == n.chain.tree.headers[x].height
    case BlocksDisconnected(_) => input.HeadersMessage? && BringsNews(n.chain, input.headers)
    case Synced(height, x, recent) =>
      && input.Advance? && n.phase == FiltersSynced && n.chain.queue.queue == [] && n.chain.queue.want == None
      && height == n.chain.tree.tip.height && x == n.chain.tree.tip.hash
      && recent == Recent(n.chain.tree.headers, n.chain.tree.tip.hash, 10)
  }

  /** A check was made of a filter that came in a message, had the committed hash, and was held
      against the scripts at that time; a delivery came with the block; headers were disconnected by
      a message of headers. */
  ghost predicate Enters(n: Client, input: Input, e: Entry) {
    match e
    case Assumed(_) => false
    case Checked(x, contents, commitment, matched) =>
      && input.FilterMessage? && input.filter == CFilter(contents, x) && CommitsToFilter(n.chain.tree, input.filter)
      && n.chain.tree.headers[x].commitment == Some(commitment)
      && matched == (n.chain.matcher(contents, x, n.chain.scripts) == Some(true))
    case Disconnected(_) => input.HeadersMessage? && BringsNews(n.chain, input.headers)
    case Delivered(x) => input.BlockMessage? && input.block.header.BlockHash() == x && Welcome(n.chain, input.block)
  }

  /** Events and history grow by what the input causes, and the scripts by what it adds. */
  ghost predicate Records(n: Client, input: Input, c: Chain) {
    && n.chain.events <= c.events && (forall j | |n.chain.events| <= j < |c.events| :: Causes(n, input, c.events[j]))
    && n.chain.log <= c.log && (forall j | |n.chain.log| <= j < |c.log| :: Enters(n, input, c.log[j]))
    && c.matcher == n.chain.matcher
    && c.scripts == n.chain.scripts + if input.AddScript? then {input.script} else {}
  }

  /** Only disconnections are added. */
  ghost predicate OnlyDisconnects(c: Chain, c': Chain) {
    && c.events <= c'.events && (forall j | |c.events| <= j < |c'.events| :: c'.events[j].BlocksDisconnected?)
    && c.log <= c'.log && (forall j | |c.log| <= j < |c'.log| :: c'.log[j].Disconnected?)
    && c'.matcher == c.matcher && c'.scripts == c.scripts
  }

  lemma {:induction false} BatchDisconnects(c: Chain, hs: seq<Header>, next: Option<Checkpoint>)
    ensures OnlyDisconnects(c, AbsorbAll(c, hs, next).chain)
    decreases |hs|
  {
    if hs != [] {
      var c1 := AbsorbOne(c, hs[0], next).chain;
      AbsorbOneBooks(c, hs[0], next);
      assert OnlyDisconnects(c, c1);
      BatchDisconnects(c1, hs[1..], next);
    }
  }

  ghost predicate SameRecords(c: Chain, c': Chain) {
    c'.events == c.events && c'.log == c.log && c'.matcher == c.matcher && c'.scripts == c.scripts
  }

  lemma MessageDisconnects(c: Chain, hs: seq<Header>, fault: HeaderStores.Fault)
    ensures OnlyDisconnects(c, SyncChain(c, hs, fault).0)
    ensures !BringsNews(c, hs) ==> SyncChain(c, hs, fault).0 == c
  {
    var a := AbsorbAll(c, hs, NextCheckpoint(c)).chain;
    BatchDisconnects(c, hs, NextCheckpoint(c));
    assert SyncChain(c, hs, fault).0 == c || SameRecords(a, SyncChain(c, hs, fault).0);
  }

  lemma NextRecordsNothing(c: Chain)
    ensures SameRecords(c, NextStatefulMessage(c).0)
  {
  }

  lemma HeadersRecord(n: Client, peer: Peer, hs: seq<Header>, fault: HeaderStores.Fault)
    requires Books(n)
    ensures Records(n, HeadersMessage(peer, hs, fault), HandleHeaders(n, hs, fault).0.chain)
  {
    var c := SyncChain(n.chain, hs, fault).0;
    MessageDisconnects(n.chain, hs, fault);
    NextRecordsNothing(c);
    assert SameRecords(c, HandleHeaders(n, hs, fault).0.chain);
  }

  lemma FilterRecords(n: Client, peer: Peer, f: CFilter)
    ensures Records(n, FilterMessage(peer, f), SyncFilter(n.chain, f).0)
  {
    FilterRefusedIff(n.chain, f);
    if ScanIsDue(n.chain.tree) && CommitsToFilter(n.chain.tree, f) && !Unreadable(n.chain, f) {
      FilterQueuesIff(n.chain, f);
      assert SyncFilter(n.chain, f).0.matcher == n.chain.matcher && SyncFilter(n.chain, f).0.scripts == n.chain.scripts;
    }
  }

  lemma BlockRecords(n: Client, peer: Peer, b: Block)
    ensures Records(n, BlockMessage(peer, b), CheckSendBlock(n.chain, b).0)
  {
    BlockAnnouncedIff(n.chain, b);
  }

  lemma CFHeadersRecord(n: Client, peer: Peer, message: CFHeaders)
    requires Books(n)
    ensures SameRecords(n.chain, HandleCFHeaders(n, peer, message).0.chain)
  {
    NextRecordsNothing(SyncCFHeaders(n.chain, peer, message).0);
  }

  /** No other input but a turn adds anything. */
  lemma OthersRecord(n: Client, input: Input)
    requires Books(n) && !input.HeadersMessage? && !input.FilterMessage? && !input.BlockMessage?
    ensures Records(n, input, Step(n, input).0.chain)
  {
    match input
    case FilterHeadersMessage(peer, message) => CFHeadersRecord(n, peer, message);
    case _ =>
  }

  lemma StepRecords(n: Client, input: Input)
    requires Books(n)
    ensures Records(n, input, Step(n, input).0.chain)
  {
    match input
    case HeadersMessage(peer, hs, fault) => HeadersRecord(n, peer, hs, fault);
    case FilterMessage(peer, f) => FilterRecords(n, peer, f);
    case BlockMessage(peer, b) => BlockRecords(n, peer, b);
    case _ => OthersRecord(n, input);
  }

  // ---------- Whole runs ----------

  lemma RunSplit(n: Client, inputs: seq<Input>)
    requires Books(n) && inputs != []
    ensures var before := RunAll(n, inputs[..|inputs| - 1]);
            Books(before) && RunAll(n, inputs) == Step(before, inputs[|inputs| - 1]).0
  {
    var front, last := inputs[..|inputs| - 1], inputs[|inputs| - 1];
    assert front + [last] == inputs;
    RunOneMore(n, front, last);
  }

  /** Over any run, each event is caused by one of the inputs. */
  lemma {:induction false} EventHasCause(start: Client, inputs: seq<Input>, j: nat) returns (k: nat)
    requires Books(start) && |start.chain.events| <= j < |RunAll(start, inputs).chain.events|
    ensures k < |inputs| && Causes(RunAll(start, inputs[..k]), inputs[k], RunAll(start, inputs).chain.events[j])
    decreases |inputs|
  {
    var last := |inputs| - 1;
    RunSplit(start, inputs);
    var before := RunAll(start, inputs[..last]);
    StepRecords(before, inputs[last]);
    if j < |before.chain.events| {
      k := EventHasCause(start, inputs[..last], j);
      assert inputs[..last][..k] == inputs[..k];
    } else {
      k := last;
    }
  }

  /** Over any run, each entry of the history is entered by one of the inputs. */
  lemma {:induction false} EntryHasCause(start: Client, inputs: seq<Input>, j: nat) returns (k: nat)
    requires Books(start) && |start.chain.log| <= j < |RunAll(start, inputs).chain.log|
    ensures k < |inputs| && Enters(RunAll(start, inputs[..k]), inputs[k], RunAll(start, inputs).chain.log[j])
    decreases |inputs|
  {
    var last := |inputs| - 1;
    RunSplit(start, inputs);
    var before := RunAll(start, inputs[..last]);
    StepRecords(before, inputs[last]);
    if j < |before.chain.log| {
      k := EntryHasCause(start, inputs[..last], j);
      assert inputs[..last][..k] == inputs[..k];
    } else {
      k := last;
    }
  }

  // ---------- Scripts ----------

  ghost function Added(inputs: seq<Input>): set<Script> {
    set i | 0 <= i < |inputs| && inputs[i].AddScript? :: inputs[i].script
  }

  /** The client has the scripts that it started with and those that were added since. */
  lemma {:induction false} ScriptsSoFar(start: Client, inputs: seq<Input>)
    requires Books(start)
    ensures RunAll(start, inputs).chain.scripts == start.chain.scripts + Added(inputs)
    ensures RunAll(start, inputs).chain.matcher == start.chain.matcher
    decreases |inputs|
  {
    if inputs != [] {
      var last := |inputs| - 1;
      RunSplit(start, inputs);
      ScriptsSoFar(start, inputs[..last]);
      StepRecords(RunAll(start, inputs[..last]), inputs[last]);
      AddedOneMore(inputs);
    } else {
      assert Added(inputs) == {};
    }
  }

  lemma AddedOneMore(inputs: seq<Input>)
    requires inputs != []
    ensures var last := inputs[|inputs| - 1];
            Added(inputs) == Added(inputs[..|inputs| - 1]) + if last.AddScript? then {last.script} else {}
  {
    var n := |inputs| - 1;
    forall s | s in Added(inputs)
      ensures s in Added(inputs[..n]) || (inputs[n].AddScript? && s == inputs[n].script)
    {
      var i :| 0 <= i < |inputs| && inputs[i].AddScript? && inputs[i].script == s;
      if i < n {
        assert inputs[..n][i] == inputs[i];
      }
    }
  }

  /** Over any run, the flag of each check is the matcher's answer to the filter that came, for the
      scripts that the client started with and those added up to then. */
  lemma MatchedByScripts(start: Client, inputs: seq<Input>, j: nat) returns (k: nat)
    requires Books(start) && |start.chain.log| <= j < |RunAll(start, inputs).chain.log|
    requires RunAll(start, inputs).chain.log[j].Checked?
    ensures var e := RunAll(start, inputs).chain.log[j];
            && k < |inputs| && inputs[k].FilterMessage? && inputs[k].filter == CFilter(e.contents, e.hash)
            && e.matched
               == (start.chain.matcher(e.contents, e.hash, start.chain.scripts + Added(inputs[..k])) == Some(true))
  {
    k := EntryHasCause(start, inputs, j);
    ScriptsSoFar(start, inputs[..k]);
  }

  // ---------- Stored headers ----------

  ghost predicate CameIn(hs: seq<Header>, x: Hash) {
    exists i :: 0 <= i < |hs| && hs[i].BlockHash() == x
  }

  /** Stored headers stay where they are, and new ones come from the list. */
  ghost predicate StoresFrom(t: Tree, t': Tree, hs: seq<Header>) {
    && (forall x | x in t.headers :: x in t'.headers && t'.headers[x].height == t.headers[x].height)
    && (forall x | x in t'.headers && x !in t.headers :: CameIn(hs, x))
  }

  lemma {:induction false} BatchStores(c: Chain, hs: seq<Header>, next: Option<Checkpoint>)
    requires Valid(c.tree)
    ensures StoresFrom(c.tree, AbsorbAll(c, hs, next).chain.tree, hs)
    decreases |hs|
  {
    if hs != [] {
      var c1 := AbsorbOne(c, hs[0], next).chain;
      InsertedLeaf(c.tree, hs[0]);
      AcceptValid(c.tree, hs[0]);
      AbsorbOneRequest(c, hs[0], next);
      BatchStores(c1, hs[1..], next);
      forall x | CameIn(hs[1..], x) || x == hs[0].BlockHash() ensures CameIn(hs, x) {
        if x != hs[0].BlockHash() {
          var i :| 0 <= i < |hs[1..]| && hs[1..][i].BlockHash() == x;
          assert hs[i + 1].BlockHash() == x;
        }
      }
    }
  }

  /** The message is taken in: it brings news, connects, has its work and does not leap. */
  ghost predicate WellFormed(c: Chain, hs: seq<Header>) {
    BringsNews(c, hs) && !Breaks(hs) && !LacksWork(c.tree.net, hs) && !Leaps(c.tree.net, hs)
  }

  lemma MessageStores(c: Chain, hs: seq<Header>, fault: HeaderStores.Fault)
    requires Valid(c.tree)
    ensures StoresFrom(c.tree, SyncChain(c, hs, fault).0.tree, if WellFormed(c, hs) then hs else [])
  {
    if BringsNews(c, hs) {
      RefusedIff(c, hs, fault);
      BatchStores(c, hs, NextCheckpoint(c));
    }
  }

  ghost function TakenIn(n: Client, input: Input): seq<Header> {
    if input.HeadersMessage? && WellFormed(n.chain, input.headers) then input.headers else []
  }

  lemma StepStores(n: Client, input: Input)
    requires Books(n)
    ensures StoresFrom(n.chain.tree, Step(n, input).0.chain.tree, TakenIn(n, input))
  {
    if input.HeadersMessage? {
      MessageStores(n.chain, input.headers, input.fault);
      SyncChainKept(n.chain, input.headers, input.fault);
      NextStatefulKept(SyncChain(n.chain, input.headers, input.fault).0);
    } else {
      OtherInputsKeepShape(n, input);
    }
  }

  /** Over any run, each stored header that was not loaded came in a message that connects, whose
      headers all have their work, and whose bits do not leap. */
  lemma {:induction false} StoredHasCause(start: Client, inputs: seq<Input>, x: Hash) returns (k: nat)
    requires Books(start) && x in RunAll(start, inputs).chain.tree.headers && x !in start.chain.tree.headers
    ensures k < |inputs| && inputs[k].HeadersMessage? && CameIn(inputs[k].headers, x)
    ensures WellFormed(RunAll(start, inputs[..k]).chain, inputs[k].headers)
    decreases |inputs|
  {
    var last := |inputs| - 1;
    RunSplit(start, inputs);
    var before := RunAll(start, inputs[..last]);
    StepStores(before, inputs[last]);
    if x in before.chain.tree.headers {
      k := StoredHasCause(start, inputs[..last], x);
      assert inputs[..last][..k] == inputs[..k];
    } else {
      k := last;
    }
  }

  lemma {:induction false} RunKeepsNetwork(start: Client, inputs: seq<Input>)
    requires Books(start)
    ensures RunAll(start, inputs).chain.tree.net == start.chain.tree.net
    decreases |inputs|
  {
    if inputs != [] {
      StepKeepsBooks(start, inputs[0]);
      StepKeepsNetwork(start, inputs[0]);
      RunKeepsNetwork(Step(start, inputs[0]).0, inputs[1..]);
    }
  }

  lemma {:induction false} BatchKeepsNetwork(c: Chain, hs: seq<Header>, next: Option<Checkpoint>)
    ensures AbsorbAll(c, hs, next).chain.tree.net == c.tree.net
    decreases |hs|
  {
    if hs != [] {
      AcceptKeepsOrigin(c.tree, hs[0]);
      AbsorbOneRequest(c, hs[0], next);
      BatchKeepsNetwork(AbsorbOne(c, hs[0], next).chain, hs[1..], next);
    }
  }

  lemma StepKeepsNetwork(n: Client, input: Input)
    requires Books(n)
    ensures Step(n, input).0.chain.tree.net == n.chain.tree.net
  {
    if input.HeadersMessage? {
      BatchKeepsNetwork(n.chain, input.headers, NextCheckpoint(n.chain));
      SyncChainTree(n.chain, input.headers, input.fault);
      SyncChainKept(n.chain, input.headers, input.fault);
      NextStatefulKept(SyncChain(n.chain, input.headers, input.fault).0);
    } else {
      OtherInputsKeepShape(n, input);
    }
  }

  /** In particular every such header has its work. */
  lemma StoredHeadersHaveWork(start: Client, inputs: seq<Input>, x: Hash)
    requires Books(start) && x in RunAll(start, inputs).chain.tree.headers && x !in start.chain.tree.headers
    ensures start.chain.tree.net.validPow(RunAll(start, inputs).chain.tree.headers[x].header)
  {
    var t := RunAll(start, inputs).chain.tree;
    var k := StoredHasCause(start, inputs, x);
    RunKeepsNetwork(start, inputs[..k]);
    var hs := inputs[k].headers;
    var i :| 0 <= i < |hs| && hs[i].BlockHash() == x;
    assert Placed(t, x);
    assert start.chain.tree.net.validPow(hs[i]);
  }

  // ---------- Checkpoints ----------

  /** The first `n` of the checkpoints are passed, and their headers stored at their heights. */
  ghost predicate Passed(all: seq<Checkpoint>, c: Chain, n: nat) {
    n <= |all| && c.checkpoints == all[n..] && forall i | 0 <= i < n :: StoredAt(c.tree, all[i].hash, all[i].height)
  }

  lemma MessagePasses(all: seq<Checkpoint>, c: Chain, hs: seq<Header>, fault: HeaderStores.Fault, n: nat) returns (m: nat)
    requires Valid(c.tree) && Passed(all, c, n)
    ensures n <= m <= n + 1 && Passed(all, SyncChain(c, hs, fault).0, m)
  {
    m := n;
    MessageStores(c, hs, fault);
    if WellFormed(c, hs) {
      MessagePassesIff(c, hs, fault);
      if ReachesCheckpoint(c.tree, hs, NextCheckpoint(c)) {
        m := n + 1;
        assert all[n..][1..] == all[n + 1..];
      }
    } else if BringsNews(c, hs) {
      RefusedIff(c, hs, fault);
    } else {
      NoNews(c, hs, fault);
    }
  }

  lemma StepPasses(all: seq<Checkpoint>, n: Client, input: Input, passed: nat) returns (m: nat)
    requires Books(n) && Passed(all, n.chain, passed)
    ensures passed <= m && Passed(all, Step(n, input).0.chain, m)
  {
    m := passed;
    if input.HeadersMessage? {
      m := MessagePasses(all, n.chain, input.headers, input.fault, passed);
    } else {
      OtherInputsKeepShape(n, input);
    }
  }

  /** Over any run, the checkpoints that are still due are those after the passed ones, and the
      header of each passed one is stored at its height. */
  lemma {:induction false} PassedAreStored(start: Client, inputs: seq<Input>) returns (m: nat)
    requires Books(start)
    ensures Passed(start.chain.checkpoints, RunAll(start, inputs).chain, m)
    decreases |inputs|
  {
    m := 0;
    if inputs != [] {
      var last := |inputs| - 1;
      RunSplit(start, inputs);
      m := PassedAreStored(start, inputs[..last]);
      m := StepPasses(start.chain.checkpoints, RunAll(start, inputs[..last]), inputs[last], m);
    }
  }
}
