/** What a checked flag stands on: a filter whose hash the header commits to now. And when a
    later round of filter headers takes that away. */
module Evidence {
  import opened Hashes
  import opened Filters
  import opened Graph
  import opened GraphInvariant
  import opened GraphFilters
  import opened FilterHeaders
  import opened FilterHeaderChain
  import opened ChainState
  import opened ChainInvariant
  import opened NodeState
  import opened NodeRuns
  import ChainLoad
  import HeaderStores

  // ---------- Rounds that replace what is committed ----------

  /** The message completes the round: it is not the pending peer's repeat, it agrees with what
      is pending, and the count is one short of the quorum. */
  ghost predicate Completes(a: Agreement, peer: Peer, batch: Batch) {
    && (a.pending.Some? ==> a.pending.value.0 != peer && a.pending.value.1 == batch)
    && a.required <= a.current + 1
  }

  /** The reply passes the checks and completes the round. */
  ghost predicate Commits(c: Chain, peer: Peer, message: CFHeaders) {
    && Judge(c.tree, c.request.lastFilterHeaderRequest, BatchOf(message)) == Counts
    && Completes(c.request.agreement, peer, BatchOf(message))
  }

  /** The reply commits, the header is in the range of the request, and `fh` is its filter hash
      in the reply. */
  ghost predicate Assigns(c: Chain, peer: Peer, message: CFHeaders, x: Hash, fh: FilterHash) {
    && Commits(c, peer, message)
    && var r := c.request.lastFilterHeaderRequest.value;
       && InRange(c.tree, r, x)
       && var k := c.tree.headers[x].height - r.startHeight;
          0 <= k < |message.filterHashes| && message.filterHashes[k] == fh
  }

  /** The header already commits to another filter hash. */
  ghost predicate Rehashes(c: Chain, peer: Peer, message: CFHeaders, x: Hash) {
    && x in c.tree.headers && c.tree.headers[x].commitment.Some?
    && exists fh :: Assigns(c, peer, message, x, fh) && fh != c.tree.headers[x].commitment.value.filterHash
  }

  /** What the reply leaves on a stored header: the filter hash assigned to it, if any. */
  lemma ReplyCommits(c: Chain, peer: Peer, message: CFHeaders, x: Hash)
    requires Kept(c) && x in c.tree.headers
    ensures SyncCFHeaders(c, peer, message).1 == Counted(Extended) <==> Commits(c, peer, message)
    ensures var c' := SyncCFHeaders(c, peer, message).0;
            && x in c'.tree.headers
            && (forall fh | Assigns(c, peer, message, x, fh) ::
                  c'.tree.headers[x].commitment.Some? && c'.tree.headers[x].commitment.value.filterHash == fh)
            && ((forall fh :: !Assigns(c, peer, message, x, fh)) ==> c'.tree.headers[x] == c.tree.headers[x])
  {
    var r, batch := c.request.lastFilterHeaderRequest, BatchOf(message);
    if Commits(c, peer, message) {
      BatchCommitsRange(c.tree, r.value, batch, x);
      ChainedLength(message.previousFilterHeader, message.filterHashes);
      if InRange(c.tree, r.value, x) {
        var k := c.tree.headers[x].height - r.value.startHeight;
        ChainedLinks(message.previousFilterHeader, message.filterHashes, k);
        assert Assigns(c, peer, message, x, message.filterHashes[k]);
      }
    }
  }

  /** A committed header comes out of a reply with another filter hash if and only if the reply
      rehashes it. */
  lemma ReplyRehashesIff(c: Chain, peer: Peer, message: CFHeaders, x: Hash)
    requires Kept(c) && x in c.tree.headers && c.tree.headers[x].commitment.Some?
    ensures var c' := SyncCFHeaders(c, peer, message).0;
            && x in c'.tree.headers && c'.tree.headers[x].commitment.Some?
            && (c'.tree.headers[x].commitment.value.filterHash != c.tree.headers[x].commitment.value.filterHash
                <==> Rehashes(c, peer, message, x))
  {
    ReplyCommits(c, peer, message, x);
  }

  // ---------- Flags and what they stand on ----------

  ghost predicate AssumedIn(log: seq<Entry>, x: Hash) {
    exists i :: 0 <= i < |log| && log[i].Assumed? && x in log[i].assumed
  }

  /** A filter of `x` with the hash `fh` was checked. */
  ghost predicate SeenWith(log: seq<Entry>, x: Hash, fh: FilterHash) {
    exists i :: 0 <= i < |log| && log[i].Checked? && log[i].hash == x && FilterHash(log[i].contents) == fh
  }

  /** The header was assumed checked, or a filter with the hash it commits to was checked. */
  ghost predicate Tied(c: Chain, x: Hash)
    requires x in c.tree.headers
  {
    || AssumedIn(c.log, x)
    || (c.tree.headers[x].commitment.Some? && SeenWith(c.log, x, c.tree.headers[x].commitment.value.filterHash))
  }

  ghost predicate AllTied(c: Chain) {
    forall x | x in c.tree.headers && c.tree.headers[x].checked :: Tied(c, x)
  }

  /** The reply gives a checked header a filter hash that no checked filter of it had. */
  ghost predicate Unties(c: Chain, peer: Peer, message: CFHeaders, x: Hash) {
    && x in c.tree.headers && c.tree.headers[x].checked && !AssumedIn(c.log, x)
    && exists fh :: Assigns(c, peer, message, x, fh) && !SeenWith(c.log, x, fh)
  }

  /** A header that is untied was rehashed: its range was committed before. */
  lemma UntiedWasRehashed(c: Chain, peer: Peer, message: CFHeaders, x: Hash)
    requires AllTied(c) && Unties(c, peer, message, x)
    ensures Rehashes(c, peer, message, x)
  {
    assert Tied(c, x);
  }

  /** A reply keeps every flag tied to the commitment of its header if and only if it unties
      none. */
  lemma ReplyKeepsTiedIff(c: Chain, peer: Peer, message: CFHeaders)
    requires Kept(c) && AllTied(c)
    ensures AllTied(SyncCFHeaders(c, peer, message).0) <==> !exists x :: Unties(c, peer, message, x)
  {
    var c' := SyncCFHeaders(c, peer, message).0;
    SyncCFHeadersShape(c, peer, message);
    forall x | x in c.tree.headers && c.tree.headers[x].checked
      ensures Tied(c', x) <==> !Unties(c, peer, message, x)
    {
      assert Tied(c, x);
      ReplyCommits(c, peer, message, x);
    }
    if x :| Unties(c, peer, message, x) {
      assert !Tied(c', x);
    }
  }

  // ---------- All other steps keep the ties ----------

  /** Checked headers were checked before, with the same commitment. */
  ghost predicate SameTies(c: Chain, c': Chain) {
    && c.log <= c'.log
    && forall x | x in c'.tree.headers && c'.tree.headers[x].checked ::
         x in c.tree.headers && c.tree.headers[x].checked
         && c'.tree.headers[x].commitment == c.tree.headers[x].commitment
  }

  lemma SeenLater(log: seq<Entry>, log': seq<Entry>, x: Hash)
    requires log <= log'
    ensures AssumedIn(log, x) ==> AssumedIn(log', x)
    ensures forall fh | SeenWith(log, x, fh) :: SeenWith(log', x, fh)
  {
    if AssumedIn(log, x) {
      var i :| 0 <= i < |log| && log[i].Assumed? && x in log[i].assumed;
      assert log'[i] == log[i];
    }
    forall fh | SeenWith(log, x, fh) ensures SeenWith(log', x, fh) {
      var i :| 0 <= i < |log| && log[i].Checked? && log[i].hash == x && FilterHash(log[i].contents) == fh;
      assert log'[i] == log[i];
    }
  }

  lemma SameTiesKeep(c: Chain, c': Chain)
    requires AllTied(c) && SameTies(c, c')
    ensures AllTied(c')
  {
    forall x | x in c'.tree.headers && c'.tree.headers[x].checked ensures Tied(c', x) {
      assert Tied(c, x);
      SeenLater(c.log, c'.log, x);
    }
  }

  lemma AbsorbOneTies(c: Chain, h: Header, next: Option<Checkpoint>)
    requires Valid(c.tree)
    ensures SameTies(c, AbsorbOne(c, h, next).chain)
  {
    InsertedLeaf(c.tree, h);
    AbsorbOneBooks(c, h, next);
  }

  lemma {:induction false} AbsorbAllTied(c: Chain, hs: seq<Header>, next: Option<Checkpoint>)
    requires Valid(c.tree) && AllTied(c)
    ensures AllTied(AbsorbAll(c, hs, next).chain)
    decreases |hs|
  {
    if hs != [] {
      AbsorbOneTies(c, hs[0], next);
      SameTiesKeep(c, AbsorbOne(c, hs[0], next).chain);
      AbsorbOneRequest(c, hs[0], next);
      AcceptValid(c.tree, hs[0]);
      AbsorbAllTied(AbsorbOne(c, hs[0], next).chain, hs[1..], next);
    }
  }

  lemma SyncChainTied(c: Chain, hs: seq<Header>, fault: HeaderStores.Fault)
    requires Valid(c.tree) && AllTied(c)
    ensures AllTied(SyncChain(c, hs, fault).0)
  {
    var c', a := SyncChain(c, hs, fault).0, AbsorbAll(c, hs, NextCheckpoint(c)).chain;
    AbsorbAllTied(c, hs, NextCheckpoint(c));
    if c' != c {
      SameTiesKeep(a, c');
    }
  }

  lemma CheckOffTied(c: Chain, f: CFilter)
    requires AllTied(c) && Checkable(c, f)
    ensures AllTied(CheckOff(c, f))
  {
    var c' := CheckOff(c, f);
    forall x | x in c'.tree.headers && c'.tree.headers[x].checked ensures Tied(c', x) {
      if x in c.tree.headers && c.tree.headers[x].checked {
        assert Tied(c, x);
        SeenLater(c.log, c'.log, x);
      } else {
        assert c'.log[|c.log|].Checked? && c'.log[|c.log|].hash == x;
        assert SeenWith(c'.log, x, FilterHash(f.contents));
      }
    }
  }

  lemma SyncFilterTied(c: Chain, f: CFilter)
    requires AllTied(c)
    ensures AllTied(SyncFilter(c, f).0)
  {
    SyncFilterParts(c, f);
    if Checkable(c, f) {
      CheckOffTied(c, f);
      SameTiesKeep(CheckOff(c, f), NextFilterMessage(CheckOff(c, f)).0);
    }
  }

  lemma RescanTied(n: Client)
    requires Books(n) && AllTied(n.chain)
    ensures AllTied(RescanFilters(n).0.chain)
  {
    BlockTreesReset(n.chain.tree);
    forall x | x in n.chain.tree.headers && ResetFilters(n.chain.tree).headers[x].checked
      ensures n.chain.tree.headers[x].checked
    {
      ResetKeepsFlagIff(n.chain.tree, x);
    }
    SameTiesKeep(n.chain, RescanFilters(n).0.chain);
  }

  lemma NextStatefulTies(c: Chain)
    ensures SameTies(c, NextStatefulMessage(c).0) && SameTies(NextStatefulMessage(c).0, c)
  {
  }

  lemma HandleHeadersTied(n: Client, hs: seq<Header>, fault: HeaderStores.Fault)
    requires Books(n) && AllTied(n.chain)
    ensures AllTied(HandleHeaders(n, hs, fault).0.chain)
  {
    var c := SyncChain(n.chain, hs, fault).0;
    SyncChainTied(n.chain, hs, fault);
    NextStatefulTies(c);
    SameTiesKeep(c, NextStatefulMessage(c).0);
  }

  lemma HandleCFHeadersTiedIff(n: Client, peer: Peer, message: CFHeaders)
    requires Books(n) && AllTied(n.chain)
    ensures AllTied(HandleCFHeaders(n, peer, message).0.chain) <==> !exists x :: Unties(n.chain, peer, message, x)
  {
    var c := SyncCFHeaders(n.chain, peer, message).0;
    ReplyKeepsTiedIff(n.chain, peer, message);
    NextStatefulTies(c);
    if AllTied(c) {
      SameTiesKeep(c, NextStatefulMessage(c).0);
    } else if AllTied(NextStatefulMessage(c).0) {
      SameTiesKeep(NextStatefulMessage(c).0, c);
    }
  }

  /** The input is a reply that unties a checked header. */
  ghost predicate UntiesSome(n: Client, input: Input) {
    input.FilterHeadersMessage? && exists x :: Unties(n.chain, input.peer, input.filterHeaders, x)
  }

  lemma OtherStepsKeepTies(n: Client, input: Input)
    requires Books(n) && !input.HeadersMessage? && !input.FilterHeadersMessage? && !input.FilterMessage? && !input.Rescan?
    ensures SameTies(n.chain, Step(n, input).0.chain)
  {
    OtherStepsKeepTree(n, input);
  }

  /** The flags stay tied to what their headers commit to over any input but one: a reply that
      gives a checked header a filter hash that was never checked for it. */
  lemma StepKeepsTiedIff(n: Client, input: Input)
    requires Books(n) && AllTied(n.chain)
    ensures AllTied(Step(n, input).0.chain) <==> !UntiesSome(n, input)
  {
    match input
    case HeadersMessage(_, hs, fault) => HandleHeadersTied(n, hs, fault);
    case FilterHeadersMessage(peer, message) => HandleCFHeadersTiedIff(n, peer, message);
    case FilterMessage(_, f) => SyncFilterTied(n.chain, f);
    case Rescan => RescanTied(n);
    case _ =>
      OtherStepsKeepTies(n, input);
      SameTiesKeep(n.chain, Step(n, input).0.chain);
  }

  ghost predicate FaithfulRun(n: Client, inputs: seq<Input>)
    requires Books(n)
    decreases |inputs|
  {
    if inputs == [] then true
    else
      StepKeepsBooks(n, inputs[0]);
      !UntiesSome(n, inputs[0]) && FaithfulRun(Step(n, inputs[0]).0, inputs[1..])
  }

  lemma {:induction false} RunKeepsTied(n: Client, inputs: seq<Input>)
    requires Books(n) && AllTied(n.chain) && FaithfulRun(n, inputs)
    ensures AllTied(RunAll(n, inputs).chain)
    decreases |inputs|
  {
    if inputs != [] {
      StepKeepsBooks(n, inputs[0]);
      StepKeepsTiedIff(n, inputs[0]);
      RunKeepsTied(Step(n, inputs[0]).0, inputs[1..]);
    }
  }

  /** The input is a reply that gives a checked header another filter hash than the one it
      commits to. */
  ghost predicate RehashesChecked(n: Client, input: Input) {
    && input.FilterHeadersMessage?
    && exists x :: x in n.chain.tree.headers && n.chain.tree.headers[x].checked
                   && Rehashes(n.chain, input.peer, input.filterHeaders, x)
  }

  lemma UntyingRehashes(n: Client, input: Input)
    requires AllTied(n.chain)
    ensures UntiesSome(n, input) ==> RehashesChecked(n, input)
  {
    if UntiesSome(n, input) {
      var x :| Unties(n.chain, input.peer, input.filterHeaders, x);
      UntiedWasRehashed(n.chain, input.peer, input.filterHeaders, x);
    }
  }

  ghost predicate RehashFreeRun(n: Client, inputs: seq<Input>)
    requires Books(n)
    decreases |inputs|
  {
    if inputs == [] then true
    else
      StepKeepsBooks(n, inputs[0]);
      !RehashesChecked(n, inputs[0]) && RehashFreeRun(Step(n, inputs[0]).0, inputs[1..])
  }

  /** Where no reply rehashes a checked header, which tree and request alone decide, none unties
      one. */
  lemma {:induction false} RehashFreeRunIsFaithful(n: Client, inputs: seq<Input>)
    requires Books(n) && AllTied(n.chain) && RehashFreeRun(n, inputs)
    ensures FaithfulRun(n, inputs)
    decreases |inputs|
  {
    if inputs != [] {
      StepKeepsBooks(n, inputs[0]);
      UntyingRehashes(n, inputs[0]);
      StepKeepsTiedIff(n, inputs[0]);
      RehashFreeRunIsFaithful(Step(n, inputs[0]).0, inputs[1..]);
    }
  }

  lemma StartIsTied(start: Client)
    requires Started(start)
    ensures AllTied(start.chain)
  {
    var c, hi :| Fresh(c) && ChainLoad.LoadHeaders(c, hi) == (start.chain, None);
    var base := ChainLoad.BaseTree(c);
    ChainLoad.BaseIsStraight(c);
    LoadedParts(c, base, hi);
    LoadRowsNoFlags(base, c.checkpoints, c.store.table, base.tip.height + 1, hi);
    var t := ChainLoad.LoadRows(base, c.checkpoints, c.store.table, base.tip.height + 1, hi).tree;
    LoadedIsTied(start.chain, t, c.tree.tip.height);
  }

  /** The flags of a freshly loaded tree are those of the headers assumed checked. */
  lemma LoadedIsTied(c: Chain, t: Tree, scan: nat)
    requires NoFlags(t) && c.tree == AssumeChecked(t, scan)
    requires c.log == [Assumed(ChainLoad.AssumedHashes(t, scan))]
    ensures AllTied(c)
  {
    forall x | x in c.tree.headers && c.tree.headers[x].checked ensures AssumedIn(c.log, x) {
      assert x in c.log[0].assumed;
    }
  }
}
