/** What the `Synced` event promises for the scripts of the client: each active header that was not
    assumed checked was last checked with the filter it commits to now, against the scripts of that
    time, and its block was delivered if they matched. */
module ScriptsSynced {
  import opened Hashes
  import opened Filters
  import opened Graph
  import opened GraphInvariant
  import opened GraphFilters
  import opened FilterHeaders
  import opened ChainState
  import opened ChainInvariant
  import opened Evidence
  import opened NodeState
  import opened NodeRuns
  import opened NodeSync
  import opened Findings
  import opened Causes
  import ChainLoad
  import HeaderStores

  // ---------- The last check ----------

  ghost predicate IsCheckOf(e: Entry, x: Hash) {
    e.Checked? && e.hash == x
  }

  ghost predicate LastCheckedAt(log: seq<Entry>, x: Hash, i: nat) {
    i < |log| && IsCheckOf(log[i], x) && forall j | i < j < |log| :: !IsCheckOf(log[j], x)
  }

  /** The header was last checked with the filter hash. */
  ghost predicate LastSeenWith(log: seq<Entry>, x: Hash, fh: FilterHash) {
    exists i: nat :: LastCheckedAt(log, x, i) && FilterHash(log[i].contents) == fh
  }

  /** The header was assumed checked, or last checked with the filter that it commits to. */
  ghost predicate Current(c: Chain, x: Hash)
    requires x in c.tree.headers
  {
    || AssumedIn(c.log, x)
    || (c.tree.headers[x].commitment.Some? && LastSeenWith(c.log, x, c.tree.headers[x].commitment.value.filterHash))
  }

  ghost predicate AllCurrent(c: Chain) {
    forall x | x in c.tree.headers && c.tree.headers[x].checked :: Current(c, x)
  }

  /** Nothing is checked, and flags stand on the same filter hashes as before. */
  ghost predicate SameChecks(c: Chain, c': Chain) {
    && c.log <= c'.log && (forall j | |c.log| <= j < |c'.log| :: !c'.log[j].Checked?)
    && forall x | x in c'.tree.headers && c'.tree.headers[x].checked ::
         && x in c.tree.headers && c.tree.headers[x].checked
         && (c.tree.headers[x].commitment.Some? ==>
               c'.tree.headers[x].commitment.Some?
               && c'.tree.headers[x].commitment.value.filterHash == c.tree.headers[x].commitment.value.filterHash)
  }

  lemma LastStays(log: seq<Entry>, log': seq<Entry>, x: Hash)
    requires log <= log' && forall j | |log| <= j < |log'| :: !IsCheckOf(log'[j], x)
    ensures AssumedIn(log, x) ==> AssumedIn(log', x)
    ensures forall fh | LastSeenWith(log, x, fh) :: LastSeenWith(log', x, fh)
  {
    SeenLater(log, log', x);
    forall fh | LastSeenWith(log, x, fh) ensures LastSeenWith(log', x, fh) {
      var i: nat :| LastCheckedAt(log, x, i) && FilterHash(log[i].contents) == fh;
      assert log'[i] == log[i];
      forall j | i < j < |log'| ensures !IsCheckOf(log'[j], x) {
        if j < |log| {
          assert log'[j] == log[j];
        }
      }
      assert LastCheckedAt(log', x, i);
    }
  }

  lemma SameChecksKeep(c: Chain, c': Chain)
    requires AllCurrent(c) && SameChecks(c, c')
    ensures AllCurrent(c')
  {
    forall x | x in c'.tree.headers && c'.tree.headers[x].checked ensures Current(c', x) {
      assert Current(c, x);
      LastStays(c.log, c'.log, x);
    }
  }

  lemma {:induction false} BatchTies(c: Chain, hs: seq<Header>, next: Option<Checkpoint>)
    requires Valid(c.tree)
    ensures SameTies(c, AbsorbAll(c, hs, next).chain)
    decreases |hs|
  {
    if hs != [] {
      AbsorbOneTies(c, hs[0], next);
      AbsorbOneRequest(c, hs[0], next);
      AcceptValid(c.tree, hs[0]);
      BatchTies(AbsorbOne(c, hs[0], next).chain, hs[1..], next);
    }
  }

  lemma MessageChecksNothing(n: Client, hs: seq<Header>, fault: HeaderStores.Fault)
    requires Books(n)
    ensures SameChecks(n.chain, HandleHeaders(n, hs, fault).0.chain)
  {
    var a := AbsorbAll(n.chain, hs, NextCheckpoint(n.chain)).chain;
    var c := SyncChain(n.chain, hs, fault).0;
    BatchTies(n.chain, hs, NextCheckpoint(n.chain));
    BatchDisconnects(n.chain, hs, NextCheckpoint(n.chain));
    assert c == n.chain || (c.tree == a.tree && c.log == a.log);
    assert SameChecks(n.chain, c);
    NextStatefulTies(c);
  }

  lemma ReplyChecksNothing(n: Client, peer: Peer, message: CFHeaders)
    requires Books(n) && !RehashesChecked(n, FilterHeadersMessage(peer, message))
    ensures SameChecks(n.chain, HandleCFHeaders(n, peer, message).0.chain)
  {
    var c := SyncCFHeaders(n.chain, peer, message).0;
    SyncCFHeadersShape(n.chain, peer, message);
    forall x | x in n.chain.tree.headers && n.chain.tree.headers[x].checked && n.chain.tree.headers[x].commitment.Some?
      ensures c.tree.headers[x].commitment.Some?
      ensures c.tree.headers[x].commitment.value.filterHash == n.chain.tree.headers[x].commitment.value.filterHash
    {
      ReplyRehashesIff(n.chain, peer, message, x);
    }
    assert c.log == n.chain.log;
    assert SameChecks(n.chain, c);
    NextStatefulTies(c);
  }

  lemma FilterKeepsCurrent(c: Chain, f: CFilter)
    requires AllCurrent(c)
    ensures AllCurrent(SyncFilter(c, f).0)
  {
    FilterRefusedIff(c, f);
    if ScanIsDue(c.tree) && CommitsToFilter(c.tree, f) && !Unreadable(c, f) {
      FilterQueuesIff(c, f);
      var c' := SyncFilter(c, f).0;
      forall x | x in c'.tree.headers && c'.tree.headers[x].checked ensures Current(c', x) {
        if x == f.blockHash && !c.tree.headers[x].checked {
          assert LastCheckedAt(c'.log, x, |c.log|);
        } else {
          assert Current(c, x);
          LastStays(c.log, c'.log, x);
        }
      }
    }
  }

  lemma RescanChecksNothing(n: Client)
    requires Books(n)
    ensures SameChecks(n.chain, RescanFilters(n).0.chain)
  {
    BlockTreesReset(n.chain.tree);
    forall x | x in n.chain.tree.headers && ResetFilters(n.chain.tree).headers[x].checked
      ensures n.chain.tree.headers[x].checked
    {
      ResetKeepsFlagIff(n.chain.tree, x);
    }
  }

  lemma OthersCheckNothing(n: Client, input: Input)
    requires Books(n) && !input.HeadersMessage? && !input.FilterHeadersMessage? && !input.FilterMessage? && !input.Rescan?
    ensures SameChecks(n.chain, Step(n, input).0.chain)
  {
    OtherStepsKeepTree(n, input);
    StepRecords(n, input);
  }

  lemma StepKeepsCurrent(n: Client, input: Input)
    requires Books(n) && AllCurrent(n.chain) && !RehashesChecked(n, input)
    ensures AllCurrent(Step(n, input).0.chain)
  {
    if input.FilterMessage? {
      FilterKeepsCurrent(n.chain, input.filter);
    } else {
      if input.HeadersMessage? {
        MessageChecksNothing(n, input.headers, input.fault);
      } else if input.FilterHeadersMessage? {
        ReplyChecksNothing(n, input.peer, input.filterHeaders);
      } else if input.Rescan? {
        RescanChecksNothing(n);
      } else {
        OthersCheckNothing(n, input);
      }
      SameChecksKeep(n.chain, Step(n, input).0.chain);
    }
  }

  lemma {:induction false} RunKeepsCurrent(n: Client, inputs: seq<Input>)
    requires Books(n) && AllCurrent(n.chain) && RehashFreeRun(n, inputs)
    ensures AllCurrent(RunAll(n, inputs).chain)
    decreases |inputs|
  {
    if inputs != [] {
      StepKeepsBooks(n, inputs[0]);
      StepKeepsCurrent(n, inputs[0]);
      RunKeepsCurrent(Step(n, inputs[0]).0, inputs[1..]);
    }
  }

  // ---------- The promise ----------

  lemma StartIsCurrent(start: Client)
    requires Started(start)
    ensures AllCurrent(start.chain) && |start.chain.log| == 1 && start.chain.log[0].Assumed?
  {
    StartIsTied(start);
    var c, hi :| Fresh(c) && ChainLoad.LoadHeaders(c, hi) == (start.chain, None);
    LoadedParts(c, ChainLoad.BaseTree(c), hi);
    forall x | x in start.chain.tree.headers && start.chain.tree.headers[x].checked ensures Current(start.chain, x) {
      assert Tied(start.chain, x);
    }
  }

  lemma {:induction false} HistoryGrows(start: Client, inputs: seq<Input>)
    requires Books(start)
    ensures start.chain.log <= RunAll(start, inputs).chain.log
    decreases |inputs|
  {
    if inputs != [] {
      StepKeepsBooks(start, inputs[0]);
      StepRecords(start, inputs[0]);
      HistoryGrows(Step(start, inputs[0]).0, inputs[1..]);
    }
  }

  /** `k` brought the filter that `x` commits to, and its last check is entry `i`, whose flag is the
      answer for the scripts of that time. */
  ghost predicate CheckedForScripts(start: Client, inputs: seq<Input>, x: Hash, i: nat, k: nat)
    requires Books(start)
  {
    var c := RunAll(start, inputs).chain;
    && LastCheckedAt(c.log, x, i) && k < |inputs| && inputs[k].FilterMessage?
    && inputs[k].filter == CFilter(c.log[i].contents, x)
    && x in c.tree.headers && c.tree.headers[x].commitment.Some?
    && c.tree.headers[x].commitment.value.filterHash == FilterHash(c.log[i].contents)
    && (c.log[i].matched
        <==> start.chain.matcher(c.log[i].contents, x, start.chain.scripts + Added(inputs[..k])) == Some(true))
  }

  /** In a run from the start in which no reply changes the filter hash of a checked header, each
      checked header that was not assumed was last checked with the filter that it commits to now,
      against all scripts that the client had by then. */
  lemma CheckedStandsOnScripts(start: Client, inputs: seq<Input>, x: Hash) returns (i: nat, k: nat)
    requires Started(start) && Books(start) && RehashFreeRun(start, inputs)
    requires var c := RunAll(start, inputs).chain;
             x in c.tree.headers && c.tree.headers[x].checked && !AssumedIn(c.log, x)
    ensures CheckedForScripts(start, inputs, x, i, k)
  {
    var c := RunAll(start, inputs).chain;
    StartIsCurrent(start);
    RunKeepsCurrent(start, inputs);
    HistoryGrows(start, inputs);
    assert Current(c, x);
    i :| LastCheckedAt(c.log, x, i) && FilterHash(c.log[i].contents) == c.tree.headers[x].commitment.value.filterHash;
    assert c.log[0] == start.chain.log[0];
    k := MatchedByScripts(start, inputs, i);
  }

  /** So when such a run announces the sync, undisturbed, the block of every such active header was
      delivered after that check if its filter matched the scripts, unless it was given up. */
  lemma SyncedServesScripts(start: Client, inputs: seq<Input>, x: Hash) returns (i: nat, k: nat)
    requires Started(start) && Books(start) && UndisturbedRun(start, inputs) && RehashFreeRun(start, inputs)
    requires AnnouncesSync(RunAll(start, inputs))
    requires var c := RunAll(start, inputs).chain; Active(c.tree, x) && !AssumedIn(c.log, x)
    ensures CheckedForScripts(start, inputs, x, i, k)
    ensures var c := RunAll(start, inputs).chain;
            start.chain.matcher(c.log[i].contents, x, start.chain.scripts + Added(inputs[..k])) == Some(true) ==>
              GivenUp(c.log, x) || (DeliveredAfter(c.log, x, i) && Announced(c.events, x))
  {
    var c := RunAll(start, inputs).chain;
    AnnouncedState(start, inputs);
    ReadyMeans(AdvanceState(RunAll(start, inputs)).chain);
    assert CheckedWithCause(AdvanceState(RunAll(start, inputs)).chain, x);
    i, k := CheckedStandsOnScripts(start, inputs, x);
    if c.log[i].matched {
      DeliveredIfMatched(RunAll(start, inputs), x, i);
    }
  }

  lemma DeliveredIfMatched(n: Client, x: Hash, i: nat)
    requires Books(n) && AnnouncesSync(n) && LastCheckedAt(n.chain.log, x, i) && n.chain.log[i].matched
    requires Settled(AdvanceState(n).chain, x) <==> !GivenUp(AdvanceState(n).chain.log, x)
    ensures GivenUp(n.chain.log, x) || (DeliveredAfter(n.chain.log, x, i) && Announced(n.chain.events, x))
  {
    assert AdvanceState(n).chain.log == n.chain.log;
    assert LastMatchedAt(n.chain.log, x, i);
    if !GivenUp(n.chain.log, x) {
      DeliveredWasAnnounced(n.chain, x, i);
    }
  }
}
