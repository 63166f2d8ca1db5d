/** Filter headers and the height index over whole runs of the node. */
module NodeChains {
  import opened Hashes
  import opened Graph
  import opened GraphInvariant
  import opened GraphIndex
  import opened GraphFilters
  import opened FilterHeaders
  import opened ChainState
  import opened ChainPersistence
  import opened FilterRequests
  import opened ChainInvariant
  import opened ChainLoad
  import opened NodeState
  import HeaderStores
  import opened NodeRuns

  // ---------- Filter headers over whole runs ----------

  /** The chain from which the step goes on to ask for data, if it does. */
  ghost function AsksFrom(n: Client, input: Input): Option<Chain>
    requires Books(n)
  {
    match input
    case HeadersMessage(_, hs, fault) =>
      var (c, error) := SyncChain(n.chain, hs, fault);
      if error.Some? && (error.value != EmptyMessage || !IsSynced(c)) then None else Some(c)
    case FilterHeadersMessage(peer, message) =>
      if SyncCFHeaders(n.chain, peer, message).1 == Counted(Extended)
      then Some(SyncCFHeaders(n.chain, peer, message).0) else None
    case _ => None
  }

  /** If the step asks for filter headers, the stop hash suits what is committed. */
  ghost predicate AsksSuitably(n: Client, input: Input)
    requires Books(n)
  {
    var c := AsksFrom(n, input);
    c.Some? && IsSynced(c.value) && !AllCommitted(c.value.tree) ==> StopSuits(c.value.tree)
  }

  ghost predicate SuitableRun(n: Client, inputs: seq<Input>)
    requires Books(n)
    decreases |inputs|
  {
    if inputs == [] then true
    else
      StepKeepsBooks(n, inputs[0]);
      AsksSuitably(n, inputs[0]) && SuitableRun(Step(n, inputs[0]).0, inputs[1..])
  }

  lemma NextStatefulFilterChained(c: Chain)
    requires FilterChained(c)
    ensures FilterChained(NextStatefulMessage(c).0) <==> (IsSynced(c) && !AllCommitted(c.tree) ==> StopSuits(c.tree))
  {
    if IsSynced(c) && !AllCommitted(c.tree) {
      NextCFHeaderFilterChained(c);
    }
  }

  lemma HandleHeadersFilterChained(n: Client, peer: Peer, hs: seq<Header>, fault: HeaderStores.Fault)
    requires Books(n) && FilterChained(n.chain)
    ensures FilterChained(HandleHeaders(n, hs, fault).0.chain) <==> AsksSuitably(n, HeadersMessage(peer, hs, fault))
  {
    SyncChainFilterChained(n.chain, hs, fault);
    if AsksFrom(n, HeadersMessage(peer, hs, fault)).Some? {
      NextStatefulFilterChained(SyncChain(n.chain, hs, fault).0);
    }
  }

  lemma HandleCFHeadersFilterChained(n: Client, peer: Peer, message: CFHeaders)
    requires Books(n) && FilterChained(n.chain)
    ensures FilterChained(HandleCFHeaders(n, peer, message).0.chain) <==> AsksSuitably(n, FilterHeadersMessage(peer, message))
  {
    SyncCFHeadersFilterChained(n.chain, peer, message);
    if AsksFrom(n, FilterHeadersMessage(peer, message)).Some? {
      NextStatefulFilterChained(SyncCFHeaders(n.chain, peer, message).0);
    }
  }

  lemma HandleFilterFilterChained(n: Client, f: CFilter)
    requires FilterChained(n.chain)
    ensures FilterChained(HandleFilter(n, f).0.chain)
  {
    SyncFilterOnlyChecks(n.chain, f);
    FlagsKeepFilterChained(n.chain, SyncFilter(n.chain, f).0);
  }

  lemma RescanFilterChained(n: Client)
    requires FilterChained(n.chain)
    ensures FilterChained(RescanFilters(n).0.chain)
  {
    BlockTreesReset(n.chain.tree);
    FlagsKeepFilterChained(n.chain, ClearFilters(n.chain));
  }

  /** A step keeps the commitments chained, and the outstanding request fit for them, if and
      only if it does not ask with an unsuitable stop hash. */
  lemma StepKeepsFilterChained(n: Client, input: Input)
    requires Books(n) && FilterChained(n.chain)
    ensures FilterChained(Step(n, input).0.chain) <==> AsksSuitably(n, input)
  {
    match input
    case HeadersMessage(peer, hs, fault) => HandleHeadersFilterChained(n, peer, hs, fault);
    case FilterHeadersMessage(peer, message) => HandleCFHeadersFilterChained(n, peer, message);
    case FilterMessage(_, f) => HandleFilterFilterChained(n, f);
    case Rescan => RescanFilterChained(n);
    case _ =>
  }

  /** Forks, reorganizations and failed writes included, each committed header stands on a
      committed parent and hashes its filter onto the parent's filter header, as long as every
      request for filter headers had a suitable stop hash. */
  lemma {:induction false} RunKeepsFilterChain(n: Client, inputs: seq<Input>)
    requires Books(n) && FilterChained(n.chain) && SuitableRun(n, inputs)
    ensures FilterChained(RunAll(n, inputs).chain)
    decreases |inputs|
  {
    if inputs != [] {
      StepKeepsBooks(n, inputs[0]);
      StepKeepsFilterChained(n, inputs[0]);
      RunKeepsFilterChain(Step(n, inputs[0]).0, inputs[1..]);
    }
  }

  // ---------- Runs that keep the index exact ----------

  /** Reorganizations in the message, if any, are tall enough. */
  ghost predicate Tall(n: Client, input: Input) {
    input.HeadersMessage? ==> NeverShort(n.chain, input.headers, NextCheckpoint(n.chain))
  }

  ghost predicate TallRun(n: Client, inputs: seq<Input>)
    requires Books(n)
    decreases |inputs|
  {
    if inputs == [] then true
    else
      StepKeepsBooks(n, inputs[0]);
      Tall(n, inputs[0]) && TallRun(Step(n, inputs[0]).0, inputs[1..])
  }

  lemma {:induction false} AbsorbAllExact(c: Chain, hs: seq<Header>, next: Option<Checkpoint>)
    requires Valid(c.tree) && Exact(c.tree) && NeverShort(c, hs, next)
    ensures Exact(AbsorbAll(c, hs, next).chain.tree)
    decreases |hs|
  {
    if hs != [] {
      AcceptValid(c.tree, hs[0]);
      AcceptKeepsExact(c.tree, hs[0]);
      AbsorbOneRequest(c, hs[0], next);
      AbsorbAllExact(AbsorbOne(c, hs[0], next).chain, hs[1..], next);
    }
  }

  lemma SyncChainExact(c: Chain, hs: seq<Header>, fault: HeaderStores.Fault)
    requires Valid(c.tree) && Exact(c.tree) && NeverShort(c, hs, NextCheckpoint(c))
    ensures Exact(SyncChain(c, hs, fault).0.tree)
  {
    SyncChainTree(c, hs, fault);
    AbsorbAllExact(c, hs, NextCheckpoint(c));
  }

  lemma StepKeepsExact(n: Client, input: Input)
    requires Books(n) && Exact(n.chain.tree) && Tall(n, input)
    ensures Exact(Step(n, input).0.chain.tree)
  {
    match input
    case HeadersMessage(_, hs, fault) =>
      SyncChainExact(n.chain, hs, fault);
      SyncChainKept(n.chain, hs, fault);
      NextStatefulKept(SyncChain(n.chain, hs, fault).0);
    case FilterHeadersMessage(peer, message) =>
      CFHeadersKeepShape(n, peer, message);
      SameShapeKeeps(n.chain.tree, HandleCFHeaders(n, peer, message).0.chain.tree);
    case FilterMessage(_, f) =>
      SyncFilterOnlyChecks(n.chain, f);
      SameShapeKeeps(n.chain.tree, SyncFilter(n.chain, f).0.tree);
    case Rescan =>
      BlockTreesReset(n.chain.tree);
      SameShapeKeeps(n.chain.tree, ResetFilters(n.chain.tree));
    case _ => OtherStepsKeepTree(n, input);
  }

  /** On an exact index, and over tall enough reorganizations, every request has a suitable stop
      hash: one on the active chain. */
  lemma ExactAsksSuitably(n: Client, input: Input)
    requires Books(n) && FilterChained(n.chain) && Exact(n.chain.tree) && Tall(n, input)
    ensures AsksSuitably(n, input)
  {
    var c := AsksFrom(n, input);
    if c.Some? && !AllCommitted(c.value.tree) {
      match input
      case HeadersMessage(_, hs, fault) =>
        SyncChainExact(n.chain, hs, fault);
        SyncChainFilterChained(n.chain, hs, fault);
        ExactStopSuits(c.value.tree);
      case FilterHeadersMessage(peer, message) =>
        SyncCFHeadersShape(n.chain, peer, message);
        SameShapeKeeps(n.chain.tree, c.value.tree);
        SyncCFHeadersFilterChained(n.chain, peer, message);
        ExactStopSuits(c.value.tree);
    }
  }

  lemma {:induction false} TallRunIsSuitable(n: Client, inputs: seq<Input>)
    requires Books(n) && FilterChained(n.chain) && Exact(n.chain.tree) && TallRun(n, inputs)
    ensures SuitableRun(n, inputs) && Exact(RunAll(n, inputs).chain.tree)
    decreases |inputs|
  {
    if inputs != [] {
      StepKeepsBooks(n, inputs[0]);
      ExactAsksSuitably(n, inputs[0]);
      StepKeepsExact(n, inputs[0]);
      StepKeepsFilterChained(n, inputs[0]);
      TallRunIsSuitable(Step(n, inputs[0]).0, inputs[1..]);
    }
  }

  /** From the start on, whatever table was loaded. */
  lemma FilterChainFromStart(start: Client, inputs: seq<Input>)
    requires Started(start) && Books(start)
    ensures SuitableRun(start, inputs) ==> FilterChained(RunAll(start, inputs).chain)
    ensures TallRun(start, inputs) ==> SuitableRun(start, inputs) && Exact(RunAll(start, inputs).chain.tree)
  {
    StartedBooks(start);
    var c, hi :| Fresh(c) && LoadHeaders(c, hi) == (start.chain, None);
    LoadsOneChain(c, hi);
    if TallRun(start, inputs) {
      TallRunIsSuitable(start, inputs);
    }
    if SuitableRun(start, inputs) {
      RunKeepsFilterChain(start, inputs);
    }
  }
}
