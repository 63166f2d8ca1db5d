/** The quorum over whole runs: stale and wrong replies, reorganizations and new inventory may
    come in between. */
module Quorum {
  import opened Hashes
  import opened Graph
  import opened BlockTrees
  import opened FilterHeaders
  import opened FilterHeaderChain
  import opened FilterProgress
  import opened ChainState
  import opened NodeState
  import opened NodeRuns
  import HeaderStores
  import ChainLoad

  /** The messages that the count stands for. */
  type Tally = seq<(Peer, Batch)>

  /** A reply that is held to the outstanding request and counted. */
  ghost predicate PassesChecks(c: Chain, message: CFHeaders) {
    Judge(c.tree, c.request.lastFilterHeaderRequest, BatchOf(message)) == Counts
  }

  /** The peer was not counted before, or it contradicts what is pending without being the
      first that was counted. */
  ghost predicate NewVoice(votes: Tally, peer: Peer, batch: Batch) {
    votes != [] && Voted(votes, peer) ==> peer != votes[0].0 && batch != votes[0].1
  }

  ghost predicate SpeaksOnce(n: Client, input: Input, votes: Tally) {
    input.FilterHeadersMessage? && PassesChecks(n.chain, input.filterHeaders) ==>
      NewVoice(votes, input.peer, BatchOf(input.filterHeaders))
  }

  /** The tally after an input: a counted reply is added or completes or spoils the round, and a
      reset of the count clears it. */
  ghost function NextTally(n: Client, input: Input, votes: Tally): Tally
    requires Books(n)
  {
    var a := n.chain.request.agreement;
    if input.FilterHeadersMessage? && PassesChecks(n.chain, input.filterHeaders)
    then TallyAfter(a, votes, input.peer, BatchOf(input.filterHeaders))
    else if Step(n, input).0.chain.request.agreement == a then votes else []
  }

  lemma NextStatefulAgreement(c: Chain)
    ensures NextStatefulMessage(c).0.request.agreement == c.request.agreement
  {
  }

  ghost function Cleared(a: Agreement): Agreement {
    a.(pending := None, current := 0)
  }

  lemma {:induction false} AbsorbAllAgreement(c: Chain, hs: seq<Header>, next: Option<Checkpoint>)
    ensures AbsorbAll(c, hs, next).chain.request == c.request
    decreases |hs|
  {
    if hs != [] {
      AbsorbAllAgreement(AbsorbOne(c, hs[0], next).chain, hs[1..], next);
    }
  }

  lemma HeadersAgreement(n: Client, hs: seq<Header>, fault: HeaderStores.Fault)
    ensures var a' := HandleHeaders(n, hs, fault).0.chain.request.agreement;
            a' == n.chain.request.agreement || a' == Cleared(n.chain.request.agreement)
  {
    AbsorbAllAgreement(n.chain, hs, NextCheckpoint(n.chain));
    NextStatefulAgreement(SyncChain(n.chain, hs, fault).0);
  }

  lemma ReplyAgreement(n: Client, peer: Peer, message: CFHeaders)
    requires Books(n)
    ensures HandleCFHeaders(n, peer, message).0.chain.request.agreement
         == if PassesChecks(n.chain, message) then Vote(n.chain.request.agreement, peer, BatchOf(message)).0
            else n.chain.request.agreement
  {
    NextStatefulAgreement(SyncCFHeaders(n.chain, peer, message).0);
  }

  lemma OtherAgreement(n: Client, input: Input)
    requires Books(n) && !input.HeadersMessage? && !input.FilterHeadersMessage?
    ensures var a' := Step(n, input).0.chain.request.agreement;
            a' == n.chain.request.agreement || a' == Cleared(n.chain.request.agreement)
  {
  }

  /** The count stands for distinct agreeing peers after any input, unless a counted peer sends
      the pending batch again or the first of them sends anything. */
  lemma StepKeepsTally(n: Client, input: Input, votes: Tally)
    requires Books(n) && Tallied(n.chain.request.agreement, votes) && SpeaksOnce(n, input, votes)
    ensures Tallied(Step(n, input).0.chain.request.agreement, NextTally(n, input, votes))
  {
    var a := n.chain.request.agreement;
    if input.FilterHeadersMessage? {
      ReplyAgreement(n, input.peer, input.filterHeaders);
      if PassesChecks(n.chain, input.filterHeaders) {
        TallySurvivesIff(a, votes, input.peer, BatchOf(input.filterHeaders));
      }
    } else if input.HeadersMessage? {
      HeadersAgreement(n, input.headers, input.fault);
    } else {
      OtherAgreement(n, input);
    }
  }

  ghost function RunTally(n: Client, inputs: seq<Input>, votes: Tally): Tally
    requires Books(n)
    decreases |inputs|
  {
    if inputs == [] then votes
    else
      StepKeepsBooks(n, inputs[0]);
      RunTally(Step(n, inputs[0]).0, inputs[1..], NextTally(n, inputs[0], votes))
  }

  ghost predicate SpeaksOnceRun(n: Client, inputs: seq<Input>, votes: Tally)
    requires Books(n)
    decreases |inputs|
  {
    if inputs == [] then true
    else
      StepKeepsBooks(n, inputs[0]);
      SpeaksOnce(n, inputs[0], votes) && SpeaksOnceRun(Step(n, inputs[0]).0, inputs[1..], NextTally(n, inputs[0], votes))
  }

  lemma {:induction false} RunKeepsTally(n: Client, inputs: seq<Input>, votes: Tally)
    requires Books(n) && Tallied(n.chain.request.agreement, votes) && SpeaksOnceRun(n, inputs, votes)
    ensures Tallied(RunAll(n, inputs).chain.request.agreement, RunTally(n, inputs, votes))
    decreases |inputs|
  {
    if inputs != [] {
      StepKeepsBooks(n, inputs[0]);
      StepKeepsTally(n, inputs[0], votes);
      RunKeepsTally(Step(n, inputs[0]).0, inputs[1..], NextTally(n, inputs[0], votes));
    }
  }

  lemma StartIsTallied(start: Client)
    requires Started(start)
    ensures Tallied(start.chain.request.agreement, [])
  {
    var c, hi :| Fresh(c) && ChainLoad.LoadHeaders(c, hi) == (start.chain, None);
    LoadedParts(c, ChainLoad.BaseTree(c), hi);
  }

  /** In any run from the start in which no counted peer repeats itself, a reply extends the
      filter headers only if it completes the required number of distinct peers that all sent
      the same batch. The uncommitted headers then fall by the length of the batch if and only
      if the stop hash is still active and nothing in range was committed before. */
  lemma ExtensionsAreBacked(start: Client, inputs: seq<Input>, peer: Peer, message: CFHeaders)
    requires Started(start) && Books(start) && SpeaksOnceRun(start, inputs, [])
    requires SpeaksOnce(RunAll(start, inputs), FilterHeadersMessage(peer, message), RunTally(start, inputs, []))
    requires SyncCFHeaders(RunAll(start, inputs).chain, peer, message).1 == CFHeaderResult.Counted(Extended)
    ensures var c, batch := RunAll(start, inputs).chain, BatchOf(message);
            var all := RunTally(start, inputs, []) + [(peer, batch)];
            && |all| == (if c.request.agreement.required == 0 then 1 else c.request.agreement.required) && AgreeingPeers(all)
            && c.request.lastFilterHeaderRequest.Some?
            && var r, c' := c.request.lastFilterHeaderRequest.value, SyncCFHeaders(c, peer, message).0;
               |Uncommitted(c'.tree)| == |Uncommitted(c.tree)| - |batch.inner|
               <==> Active(c.tree, r.stopHash) && forall x | InRange(c.tree, r, x) :: c.tree.headers[x].commitment.None?
  {
    StartIsTallied(start);
    RunKeepsTally(start, inputs, []);
    var n, votes, batch := RunAll(start, inputs), RunTally(start, inputs, []), BatchOf(message);
    ExtendedIsBackedIff(n.chain.request.agreement, votes, peer, batch);
    assert !Voted(votes, peer);
    ReplyCommitsBatch(n.chain, peer, message);
    CommitLowersIff(n.chain.tree, n.chain.request.lastFilterHeaderRequest.value, batch);
  }

  lemma ReplyCommitsBatch(c: Chain, peer: Peer, message: CFHeaders)
    requires BelowQuorum(c.request.agreement)
    requires SyncCFHeaders(c, peer, message).1 == CFHeaderResult.Counted(Extended)
    ensures PassesChecks(c, message) && Vote(c.request.agreement, peer, BatchOf(message)).1 == Extended
    ensures SyncCFHeaders(c, peer, message).0.tree == Commit(c.tree, BatchOf(message))
  {
  }
}
