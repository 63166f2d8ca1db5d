/** Runs after which the next start cannot load what was stored, or forgets what it demanded. */
module RestartRuns {
  import opened Commons
  import opened Hashes
  import opened Graph
  import opened GraphInvariant
  import opened GraphIndex
  import opened GraphRetarget
  import opened HeaderStores
  import opened ChainState
  import opened ChainPersistence
  import opened ChainLoad
  import opened NodeState
  import opened NodeRuns
  import opened Staging
  import opened TableFollows
  import opened TableRuns
  import opened Reload
  import opened NodeMoves
  import opened FailingRuns

  ghost function Start(net: Network): Client { NewClient(net, SecondMatches()) }

  /** The root, of ten units of work, and above it headers of one unit. */
  function Mixed(k: nat): Header
    decreases k
  {
    if k <= 1 then ROOT else Child(Mixed(k - 1).BlockHash(), 1, 0)
  }

  lemma {:induction false} MixedDepth(k: nat)
    requires 1 <= k
    ensures Depth(Mixed(k).BlockHash()) == k
    decreases k
  {
    if 1 < k {
      MixedDepth(k - 1);
    }
  }

  // ---------- Runs in which no write fails ----------

  /** Reached without losing a row, one peer sending everything. */
  ghost predicate Safely(net: Network, n: Client) {
    Books(Start(net)) && exists inputs :: OnePeer(inputs) && n == RunAll(Start(net), inputs) && LosslessRun(Start(net), inputs)
  }

  lemma {:induction false} LosslessOneMore(n: Client, inputs: seq<Input>, input: Input)
    requires Books(n) && LosslessRun(n, inputs) && !LosesAt(RunAll(n, inputs), input)
    ensures LosslessRun(n, inputs + [input])
    decreases |inputs|
  {
    StepKeepsBooks(n, (inputs + [input])[0]);
    if inputs == [] {
      assert (inputs + [input])[1..] == [];
    } else {
      assert (inputs + [input])[1..] == inputs[1..] + [input];
      LosslessOneMore(Step(n, inputs[0]).0, inputs[1..], input);
    }
  }

  lemma SafeStep(net: Network, n: Client, input: Input)
    requires Safely(net, n) && FromOne(input) && (input.HeadersMessage? ==> input.fault == NoFault)
    ensures Books(n) && Reached(Start(net), n) && Safely(net, Step(n, input).0)
  {
    var inputs :| OnePeer(inputs) && n == RunAll(Start(net), inputs) && LosslessRun(Start(net), inputs);
    assert OnePeer(inputs + [input]);
    RunOneMore(Start(net), inputs, input);
    LosslessOneMore(Start(net), inputs, input);
  }

  /** The table follows the index in every state reached so. */
  lemma SafeIsFollowed(net: Network, n: Client)
    requires Safely(net, n)
    ensures Followed(n.chain.store, n.chain.tree)
  {
    var inputs :| OnePeer(inputs) && n == RunAll(Start(net), inputs) && LosslessRun(Start(net), inputs);
    NothingStoredFollows(net);
    RunKeepsFollowed(Start(net), inputs);
  }

  lemma NothingStoredFollows(net: Network)
    ensures var t := FromTip(net, Tip(Anchor(0), 0, None)); Followed(Store(map[], map[], {}), t) && Exact(t)
  {
    StartsValid(net, Tip(Anchor(0), 0, None), 0, ROOT);
    assert Pending(Store(map[], map[], {})) == map[];
  }

  /** A client whose peer is known to be far ahead, with nothing staged. */
  ghost predicate Waits(net: Network, n: Client) {
    Safely(net, n) && n.chain.heights == map[0 := AHEAD] && n.chain.checkpoints == [] && Clean(n.chain.store)
  }

  ghost predicate Clean(s: Store) {
    s.accepted == map[] && s.disconnected == {}
  }

  lemma WaitsAtStart(net: Network) returns (n: Client)
    ensures Waits(net, n) && n.chain.tree == FromTip(net, Tip(Anchor(0), 0, None))
    ensures n.chain.store == Store(map[], map[], {})
  {
    ClientStarts(net, SecondMatches(), 1);
    assert OnePeer([]) && Start(net) == RunAll(Start(net), []) && LosslessRun(Start(net), []);
    var input := VersionMessage(0, AHEAD, Version(WTXID_VERSION, true, true));
    SafeStep(net, Start(net), input);
    n := Step(Start(net), input).0;
  }

  lemma TakeNext(net: Network, n: Client, h: Header) returns (n': Client)
    requires Waits(net, n) && Fits(n, h) && Accept(n.chain.tree, h).0.tip.height < AHEAD
    requires Accept(n.chain.tree, h).1.Accepted? || Accept(n.chain.tree, h).1.ExtendedFork?
    ensures Waits(net, n') && n'.chain.tree == Accept(n.chain.tree, h).0
  {
    SafeStep(net, n, HeadersMessage(0, [h], NoFault));
    n' := TakeHeaderWith(Start(net), n, h, NoFault);
    StoreIsFlushed(n, h);
  }

  // ---------- A chain of two kinds of bits ----------

  ghost predicate MixedTree(t: Tree, net: Network, m: nat) {
    && 1 <= m && t.net == net && t.origin == Origin(Anchor(0), 0) && t.forks == []
    && t.tip == Tip(Mixed(m).BlockHash(), m, None)
    && t.tip.hash in t.headers && t.headers[t.tip.hash].accWork == 9 + m
    && ROOT.BlockHash() in t.headers && t.headers[ROOT.BlockHash()] == FreshNode(1, ROOT, 10)
    && (forall x | x in t.headers :: x == Mixed(t.headers[x].height).BlockHash() && 1 <= t.headers[x].height <= m)
  }

  /** Nothing at the height is held to a retarget yet: the first two adjustments above the start
      have no header to look up one interval below. */
  ghost predicate Unaudited(net: Network, k: nat) {
    Retargets(net) ==> k < 2 * net.interval
  }

  lemma OnlyAdjustment(net: Network, k: nat)
    requires IsAdjustment(net, k) && 0 < k < 2 * net.interval
    ensures k == net.interval
  {
  }

  lemma UnauditedDemand(t: Tree, net: Network, m: nat)
    requires Valid(t) && MixedTree(t, net, m) && Unaudited(net, m + 1)
    ensures NextWork(t, m + 1, None) == None
  {
    if Retargets(net) && IsAdjustment(net, m + 1) {
      OnlyAdjustment(net, m + 1);
      assert 0 !in t.index;
    }
  }

  lemma MixedGrows(t: Tree, net: Network, m: nat)
    requires Unaudited(net, m + 1) && Valid(t) && MixedTree(t, net, m)
    ensures var h := Mixed(m + 1);
            && Accept(t, h).1.Accepted? && MixedTree(Accept(t, h).0, net, m + 1)
            && h.BlockHash() !in t.headers && h.BlockHash() != t.tip.hash
  {
    UnauditedDemand(t, net, m);
    TipHasNoStoredChild(t, Mixed(m + 1));
    NewMixedGrows(t, net, m);
  }

  lemma NewMixedGrows(t: Tree, net: Network, m: nat)
    requires MixedTree(t, net, m) && NextWork(t, m + 1, None) == None && Mixed(m + 1).BlockHash() !in t.headers
    ensures var h := Mixed(m + 1);
            && Accept(t, h).1.Accepted? && MixedTree(Accept(t, h).0, net, m + 1) && h.BlockHash() != t.tip.hash
  {
    MixedDepth(m);
    MixedDepth(m + 1);
    GrowTip(t, Mixed(m + 1));
  }

  /** The client has taken in the headers up to height `m`, and stored them. */
  ghost predicate MixedState(n: Client, net: Network, m: nat) {
    Waits(net, n) && Exact(n.chain.tree) && MixedTree(n.chain.tree, net, m)
  }

  lemma RootGrows(t: Tree, net: Network)
    requires t == FromTip(net, Tip(Anchor(0), 0, None))
    ensures Accept(t, ROOT).1.Accepted? && MixedTree(Accept(t, ROOT).0, net, 1) && Exact(Accept(t, ROOT).0)
    ensures ROOT.BlockHash() !in t.headers && ROOT.BlockHash() != t.tip.hash
  {
    assert Mixed(1) == ROOT;
    StartsValid(net, t.tip, 0, ROOT);
    StartsExact(net, t.tip, 0, ROOT);
    GrowTip(t, ROOT);
    AcceptKeepsExact(t, ROOT);
  }

  lemma {:induction false} MixedReached(net: Network, m: nat) returns (n: Client)
    requires PowPasses(net) && Unaudited(net, m) && 1 <= m < AHEAD
    ensures MixedState(n, net, m)
    decreases m
  {
    if m == 1 {
      n := WaitsAtStart(net);
      RootGrows(n.chain.tree, net);
      n := TakeNext(net, n, ROOT);
    } else {
      n := MixedReached(net, m - 1);
      n := MixedStep(net, n, m - 1);
    }
  }

  lemma MixedStep(net: Network, n: Client, m: nat) returns (n': Client)
    requires PowPasses(net) && Unaudited(net, m + 1) && MixedState(n, net, m) && m + 1 < AHEAD
    ensures MixedState(n', net, m + 1)
  {
    SafeIsValid(net, n);
    MixedGrows(n.chain.tree, net, m);
    AcceptKeepsExact(n.chain.tree, Mixed(m + 1));
    n' := TakeNext(net, n, Mixed(m + 1));
  }

  lemma SafeIsValid(net: Network, n: Client)
    requires Safely(net, n)
    ensures Books(n) && Valid(n.chain.tree) && Reached(Start(net), n)
  {
    SafeStep(net, n, Advance(false));
  }

  // ---------- Starting again ----------

  /** A client that starts from the same bare checkpoint on a stored table. */
  ghost predicate StartsAgain(c: Chain, net: Network, table: map<nat, Header>) {
    c.tree == FromTip(net, Tip(Anchor(0), 0, None)) && c.store.table == table
  }

  lemma BareBase(c: Chain, net: Network)
    requires c.tree == FromTip(net, Tip(Anchor(0), 0, None)) && 0 !in c.store.table
    ensures BaseTree(c) == c.tree
  {
    assert LastEpochStart(net, 0) == 0;
  }

  /** No row can be that of the checkpoint, whose header is not known. */
  lemma NoRowAtCheckpoint(rows: map<nat, Header>)
    requires BaseLinks(rows, Origin(Anchor(0), 0))
    ensures 0 !in rows
  {
  }

  // ---------- A shorter branch ----------

  ghost predicate ForkedTree(t: Tree, net: Network) {
    && t.net == net && t.origin == Origin(Anchor(0), 0) && t.tip.height == 4 && t.tip.hash in t.headers
    && t.headers[t.tip.hash].accWork == 13 && t.forks == [Tip(RIGHT.BlockHash(), 2, Some(ROOT.bits))]
    && RIGHT.BlockHash() in t.headers && t.headers[RIGHT.BlockHash()] == FreshNode(2, RIGHT, 20)
    && RIGHT.BlockHash() != t.tip.hash && RIGHT2.BlockHash() !in t.headers && RIGHT2.BlockHash() != t.tip.hash
  }

  lemma RightIsNotMixed(k: nat)
    requires 1 <= k
    ensures RIGHT != Mixed(k) && RIGHT2 != Mixed(k)
  {
    Family();
    MixedDepth(k);
    assert Mixed(1) == ROOT && Mixed(2) == LEFT && Mixed(3).prev == LEFT.BlockHash();
  }

  lemma RightForks(t: Tree, net: Network)
    requires !Retargets(net) && MixedTree(t, net, 4)
    ensures Accept(t, RIGHT).1.ExtendedFork? && ForkedTree(Accept(t, RIGHT).0, net)
    ensures RIGHT.BlockHash() !in t.headers && RIGHT.BlockHash() != t.tip.hash
  {
    Family();
    forall x | x in t.headers ensures x != RIGHT.BlockHash() && x != RIGHT2.BlockHash() {
      RightIsNotMixed(t.headers[x].height);
    }
    MixedDepth(4);
    GrowFork(t, RIGHT);
  }

  lemma RightShortens(t: Tree, net: Network)
    requires !Retargets(net) && ForkedTree(t, net)
    ensures Reorganizes(t, RIGHT2) && Accept(t, RIGHT2).0.tip.height == 3 && !TallEnough(t, RIGHT2)
  {
    Family();
    GrowOnlyCandidate(t, RIGHT2);
  }

  lemma ForkReached(net: Network) returns (n: Client)
    requires AnyPow(net)
    ensures Waits(net, n) && Exact(n.chain.tree) && ForkedTree(n.chain.tree, net)
  {
    n := MixedReached(net, 4);
    SafeIsValid(net, n);
    RightForks(n.chain.tree, net);
    AcceptKeepsExact(n.chain.tree, RIGHT);
    n := TakeNext(net, n, RIGHT);
  }

  lemma StoreIsFlushed(n: Client, h: Header)
    ensures Clean(StoreAfter(n, h, NoFault))
    ensures StoreAfter(n, h, NoFault).table == Pending(AbsorbOne(n.chain, h, None).chain.store)
  {
  }

  lemma CleanIsPending(s: Store)
    requires Clean(s)
    ensures Pending(s) == s.table
  {
  }

  /** What a written reorganization leaves in the table. */
  lemma ReorganizationIsWritten(n: Client, h: Header)
    requires Followed(n.chain.store, n.chain.tree) && Clean(n.chain.store) && Reorganizes(n.chain.tree, h)
    ensures StoreAfter(n, h, NoFault).table == ReorganizedRows(n.chain.store.table, n.chain.tree, h)
  {
    StoreIsFlushed(n, h);
    AbsorbOneStages(n.chain, h, None);
    EagerChange(n.chain.store.table, n.chain.tree, h);
    CleanIsPending(n.chain.store);
  }

  ghost predicate AlwaysCorrupt(net: Network, table: map<nat, Header>) {
    forall c, hi | StartsAgain(c, net, table) && 4 < hi :: LoadHeaders(c, hi).1 == Some(DatabaseCorruption)
  }

  lemma ShortTableHasNoFirst(rows: map<nat, Header>, t: Tree, net: Network)
    requires Valid(t) && RowsFollow(rows, t) && Reorganizes(t, RIGHT2) && t.origin == Origin(Anchor(0), 0)
    ensures 0 !in ReorganizedRows(rows, t, RIGHT2)
  {
    ReorganizationFollows(rows, t, RIGHT2);
    AcceptKeepsOrigin(t, RIGHT2);
    NoRowAtCheckpoint(ReorganizedRows(rows, t, RIGHT2));
  }

  lemma ShortLoadIsCorrupt(rows: map<nat, Header>, t: Tree, net: Network, c: Chain, hi: nat)
    requires !Retargets(net) && Valid(t) && Exact(t) && RowsFollow(rows, t) && ForkedTree(t, net)
    requires Reorganizes(t, RIGHT2) && StartsAgain(c, net, ReorganizedRows(rows, t, RIGHT2)) && 4 < hi
    ensures LoadHeaders(c, hi).1 == Some(DatabaseCorruption)
  {
    RightShortens(t, net);
    ShortTableHasNoFirst(rows, t, net);
    BareBase(c, net);
    ShortReorganizationCorruptsIff(rows, t, RIGHT2, c, hi);
  }

  lemma ShortTableIsCorrupt(rows: map<nat, Header>, t: Tree, net: Network)
    requires !Retargets(net) && Valid(t) && Exact(t) && RowsFollow(rows, t) && ForkedTree(t, net) && Reorganizes(t, RIGHT2)
    ensures AlwaysCorrupt(net, ReorganizedRows(rows, t, RIGHT2))
  {
    forall c, hi | StartsAgain(c, net, ReorganizedRows(rows, t, RIGHT2)) && 4 < hi
      ensures LoadHeaders(c, hi).1 == Some(DatabaseCorruption)
    {
      ShortLoadIsCorrupt(rows, t, net, c, hi);
    }
  }

  /** A run from the start in which a shorter branch wins and all writes succeed. The next start
      finds the table corrupt. */
  lemma ShorterBranchCorruptsTable(net: Network)
    requires AnyPow(net)
    ensures exists n :: Reached(Start(net), n) && Clean(n.chain.store) && AlwaysCorrupt(net, n.chain.store.table)
  {
    var n := ForkReached(net);
    SafeIsFollowed(net, n);
    SafeIsValid(net, n);
    RightShortens(n.chain.tree, net);
    ReorganizationIsWritten(n, RIGHT2);
    StoreIsFlushed(n, RIGHT2);
    CleanIsPending(n.chain.store);
    ShortTableIsCorrupt(n.chain.store.table, n.chain.tree, net);
    n := TakeReorganization(Start(net), n, RIGHT2);
  }

  // ---------- A failed write ----------

  ghost predicate AlwaysStuck(net: Network, table: map<nat, Header>) {
    forall c, hi | StartsAgain(c, net, table) && 2 < hi :: LoadHeaders(c, hi).1 == Some(CannotLocateHistory)
  }

  lemma GapIsStuck(net: Network)
    ensures AlwaysStuck(net, map[2 := LEFT])
  {
    Family();
    forall c, hi | StartsAgain(c, net, map[2 := LEFT]) && 2 < hi
      ensures LoadHeaders(c, hi).1 == Some(CannotLocateHistory)
    {
      BareBase(c, net);
      assert LinkedBetween(c.store.table, 1, hi);
      assert RowLoaded(c.tree, c.checkpoints, 2, LEFT).error == Some(CannotLocateHistory);
      assert LoadRows(c.tree, c.checkpoints, c.store.table, 2, hi).error == Some(CannotLocateHistory);
      assert LoadRows(c.tree, c.checkpoints, c.store.table, 1, hi)
          == LoadRows(c.tree, c.checkpoints, c.store.table, 2, hi);
    }
  }

  lemma RootLost(net: Network) returns (n: Client)
    requires AnyPow(net)
    ensures Reached(Start(net), n) && n.chain.heights == map[0 := AHEAD] && n.chain.checkpoints == []
    ensures n.chain.store == Store(map[], map[], {})
    ensures n.chain.tree == OneTree(net, ROOT, None, false)
  {
    n := WaitsAtStart(net);
    SafeIsValid(net, n);
    GrowTip(n.chain.tree, ROOT);
    n := TakeHeaderWith(Start(net), n, ROOT, AtCommit);
  }

  /** A run from the start in which the write of the first header fails at its commit, and that
      of the second succeeds. The next start cannot place the second. */
  lemma FailedWriteStopsRestart(net: Network)
    requires AnyPow(net)
    ensures exists n :: Reached(Start(net), n) && Clean(n.chain.store) && AlwaysStuck(net, n.chain.store.table)
  {
    Family();
    var n := RootLost(net);
    GrowTip(n.chain.tree, LEFT);
    n := TakeHeaderWith(Start(net), n, LEFT, NoFault);
    assert n.chain.store.table == map[2 := LEFT];
    GapIsStuck(net);
  }

  // ---------- Two kinds of bits ----------

  /** A client that starts from the eighth header on a stored table. */
  ghost predicate StartsAtEight(c: Chain, net: Network, table: map<nat, Header>) {
    c.tree == FromTip(net, Tip(Mixed(8).BlockHash(), 8, None)) && c.store.table == table
  }

  lemma BaseIsFirst(c: Chain, net: Network, table: map<nat, Header>)
    requires StartsAtEight(c, net, table) && 8 < net.interval && 0 !in table && 1 in table && table[1] == ROOT
    ensures BaseTree(c) == FromHeader(net, 1, ROOT)
  {
    assert LastEpochStart(net, 8) == 0;
  }

  ghost predicate NeverReaches(net: Network, table: map<nat, Header>, tip: Tip) {
    forall c, hi | StartsAtEight(c, net, table) && tip.height < hi ::
      !EndsAtTip(LoadHeaders(c, hi).0, LoadHeaders(c, hi).1, tip)
  }

  lemma EightLoad(t: Tree, net: Network, c: Chain, hi: nat)
    requires !Retargets(net) && 8 < net.interval && Valid(t) && MixedTree(t, net, 8) && t.tip.height < hi
    requires TableIsChain(c.store.table, t) && 0 !in c.store.table && StartsAtEight(c, net, c.store.table)
    ensures !EndsAtTip(LoadHeaders(c, hi).0, LoadHeaders(c, hi).1, t.tip)
  {
    FirstIsRoot(t, net);
    ActiveIsAtHeight(t, ROOT.BlockHash());
    BaseIsFirst(c, net, c.store.table);
    SecondIsLight(t, net);
    ReloadTableIff(t, c, hi);
  }

  lemma SecondIsLight(t: Tree, net: Network)
    requires Valid(t) && MixedTree(t, net, 8)
    ensures !BitsHold(FromHeader(net, 1, ROOT), t)
  {
    assert Placed(t, t.tip.hash);
    var x := AtHeight(t, 2);
    assert Mixed(1) == ROOT && x == Mixed(2).BlockHash() && Placed(t, x);
    assert Active(t, x) && t.headers[x].header.bits != ROOT.bits;
  }

  lemma EightAreLinked(n: Client, net: Network)
    requires !Retargets(net) && 8 < net.interval && MixedState(n, net, 8)
    ensures NeverReaches(net, n.chain.store.table, n.chain.tree.tip)
  {
    var t, table := n.chain.tree, n.chain.store.table;
    SafeIsFollowed(net, n);
    CleanIsPending(n.chain.store);
    AgreeingTableIsChain(table, t);
    NoRowAtCheckpoint(table);
    forall c, hi | StartsAtEight(c, net, table) && t.tip.height < hi
      ensures !EndsAtTip(LoadHeaders(c, hi).0, LoadHeaders(c, hi).1, t.tip)
    {
      EightLoad(t, net, c, hi);
    }
  }

  lemma FirstIsRoot(t: Tree, net: Network)
    requires Valid(t) && MixedTree(t, net, 8)
    ensures Active(t, ROOT.BlockHash()) && t.headers[ROOT.BlockHash()].height == 1
  {
    assert Placed(t, t.tip.hash);
    var x := AtHeight(t, 1);
    assert Mixed(1) == ROOT && x == ROOT.BlockHash();
  }

  /** A run from the start without retargeting, whose first header has other bits than the rest.
      A start from the eighth header, which loads onto the first, does not get back to the tip. */
  lemma MixedBitsStopRestart(net: Network)
    requires AnyPow(net) && 8 < net.interval
    ensures exists n :: Reached(Start(net), n) && Clean(n.chain.store)
                        && NeverReaches(net, n.chain.store.table, n.chain.tree.tip)
  {
    var n := MixedReached(net, 8);
    SafeIsValid(net, n);
    EightAreLinked(n, net);
  }

  // ---------- An adjustment that is not checked after a restart ----------

  /** A client that starts from the tip of the run before. */
  ghost predicate StartsAtTip(c: Chain, net: Network, table: map<nat, Header>, tip: Tip) {
    c.tree == FromTip(net, tip) && c.store.table == table
  }

  /** The headers that a tree accepts above its tip. */
  ghost predicate TakesNext(t: Tree, h: Header) {
    h.prev == t.tip.hash && Accept(t, h).1.Accepted?
  }

  lemma LastBlockOfEpoch(net: Network)
    ensures LastEpochStart(net, 2 * net.interval - 1) == net.interval
    ensures IsAdjustment(net, 2 * net.interval)
  {
    var n: int := net.interval;
    Quotient(2 * n - 1, n, 1);
    Quotient(2 * n, n, 2);
  }

  lemma BaseIsAdjustment(c: Chain, net: Network, table: map<nat, Header>, tip: Tip)
    requires StartsAtTip(c, net, table, tip) && tip.height == 2 * net.interval - 1 && 8 <= net.interval
    requires net.interval in table
    ensures BaseTree(c) == FromHeader(net, net.interval, table[net.interval])
  {
    LastBlockOfEpoch(net);
  }

  /** After a load onto the last adjustment, the next one is held to nothing. */
  lemma LoadDemandsNothing(c: Chain, hi: nat, h: Header)
    requires c.tree == FromTip(c.tree.net, c.tree.tip) && LoadHeaders(c, hi).1 == None
    requires Retargets(c.tree.net) && BaseTree(c).origin.height + 1 == BaseTree(c).tip.height
    requires var t := LoadHeaders(c, hi).0.tree;
             && BaseTree(c).tip.height < t.tip.height && t.tip.height + 1 == BaseTree(c).tip.height + t.net.interval
             && IsAdjustment(t.net, t.tip.height + 1) && h.prev == t.tip.hash
    ensures TakesNext(LoadHeaders(c, hi).0.tree, h)
  {
    var t := LoadHeaders(c, hi).0.tree;
    LoadsOneChain(c, hi);
    LoadLeavesBaseUnindexed(c, hi);
    assert t.headers != map[];
    var root := AtHeight(t, t.origin.height + 1);
    RootByDepth(t, root);
    assert IsRoot(t, root);
    RestartSkipsAdjustment(t, h);
  }

  ghost predicate Forgets(net: Network, table: map<nat, Header>, tip: Tip) {
    forall c, hi | StartsAtTip(c, net, table, tip) && tip.height < hi ::
      && EndsAtTip(LoadHeaders(c, hi).0, LoadHeaders(c, hi).1, tip)
      && forall h: Header | h.prev == tip.hash :: TakesNext(LoadHeaders(c, hi).0.tree, h)
  }

  lemma LightAbove(t: Tree, net: Network, k: nat, m: nat)
    requires Valid(t) && MixedTree(t, net, m) && 2 <= k <= m
    ensures AtHeight(t, k) == Mixed(k).BlockHash() && BitsHold(FromHeader(net, k, Mixed(k)), t)
  {
    assert Placed(t, t.tip.hash);
    assert Mixed(k).bits == Bits(1, 1);
    forall x | Active(t, x) && k < t.headers[x].height ensures t.headers[x].header.bits == Bits(1, 1) {
      assert Placed(t, x) && x == Mixed(t.headers[x].height).BlockHash();
    }
  }

  lemma EpochIsUnadjusted(net: Network)
    ensures Unadjusted(net, net.interval, 2 * net.interval - 1)
  {
    forall k: nat | net.interval < k <= 2 * net.interval - 1 ensures !IsAdjustment(net, k) {
      if IsAdjustment(net, k) {
        OnlyAdjustment(net, k);
      }
    }
  }

  lemma EpochReloads(t: Tree, net: Network, c: Chain, hi: nat)
    requires 8 <= net.interval && Valid(t) && MixedTree(t, net, 2 * net.interval - 1) && t.tip.height < hi
    requires StartsAtTip(c, net, c.store.table, t.tip) && TableIsChain(c.store.table, t)
    ensures EndsAtTip(LoadHeaders(c, hi).0, LoadHeaders(c, hi).1, t.tip)
    ensures BaseTree(c) == FromHeader(net, net.interval, Mixed(net.interval))
  {
    LightAbove(t, net, net.interval, t.tip.height);
    ActiveIsAtHeight(t, t.tip.hash);
    assert c.store.table[net.interval].BlockHash() == AtHeight(t, net.interval) by {
      assert Placed(t, AtHeight(t, net.interval));
    }
    BaseIsAdjustment(c, net, c.store.table, t.tip);
    EpochIsUnadjusted(net);
    ReloadTableIff(t, c, hi);
  }

  lemma EpochDemandsNothing(t: Tree, net: Network, c: Chain, hi: nat, h: Header)
    requires Retargets(net) && 8 <= net.interval && t.tip.height == 2 * net.interval - 1
    requires StartsAtTip(c, net, c.store.table, t.tip) && EndsAtTip(LoadHeaders(c, hi).0, LoadHeaders(c, hi).1, t.tip)
    requires BaseTree(c) == FromHeader(net, net.interval, Mixed(net.interval)) && h.prev == t.tip.hash
    ensures TakesNext(LoadHeaders(c, hi).0.tree, h)
  {
    LastBlockOfEpoch(net);
    LoadsOneChain(c, hi);
    LoadDemandsNothing(c, hi, h);
  }

  lemma EpochForgets(t: Tree, net: Network, table: map<nat, Header>)
    requires Retargets(net) && 8 <= net.interval && Valid(t) && MixedTree(t, net, 2 * net.interval - 1)
    requires TableIsChain(table, t)
    ensures Forgets(net, table, t.tip)
  {
    forall c, hi | StartsAtTip(c, net, table, t.tip) && t.tip.height < hi
      ensures EndsAtTip(LoadHeaders(c, hi).0, LoadHeaders(c, hi).1, t.tip)
      ensures forall h: Header | h.prev == t.tip.hash :: TakesNext(LoadHeaders(c, hi).0.tree, h)
    {
      EpochReloads(t, net, c, hi);
      forall h: Header | h.prev == t.tip.hash ensures TakesNext(LoadHeaders(c, hi).0.tree, h) {
        EpochDemandsNothing(t, net, c, hi, h);
      }
    }
  }

  /** The running tree holds the child of its tip to the retarget of its own ancestors. */
  ghost predicate Demands(t: Tree) {
    && t.net.interval <= Depth(t.tip.hash)
    && forall h: Header | h.prev == t.tip.hash :: TakesNext(t, h) <==> h.bits == OwnRetarget(t.net, t.tip.hash)
  }

  lemma EpochDemands(t: Tree, net: Network)
    requires Retargets(net) && 8 <= net.interval && Valid(t) && Exact(t) && MixedTree(t, net, 2 * net.interval - 1)
    ensures Demands(t)
  {
    LastBlockOfEpoch(net);
    AdjustmentLookup(t, t.tip.nextWork);
    forall h: Header | h.prev == t.tip.hash ensures TakesNext(t, h) <==> h.bits == OwnRetarget(t.net, t.tip.hash) {
      assert Accept(t, h) == ExtendTip(t, h);
    }
  }

  lemma EpochEnds(net: Network, n: Client)
    requires Retargets(net) && 8 <= net.interval && MixedState(n, net, 2 * net.interval - 1) && Valid(n.chain.tree)
    ensures Demands(n.chain.tree) && Forgets(net, n.chain.store.table, n.chain.tree.tip)
  {
    SafeIsFollowed(net, n);
    CleanIsPending(n.chain.store);
    AgreeingTableIsChain(n.chain.store.table, n.chain.tree);
    EpochForgets(n.chain.tree, net, n.chain.store.table);
    EpochDemands(n.chain.tree, net);
  }

  /** A run from the start on a retargeting network, up to the block before the second adjustment.
      The running client holds the next header to the retarget. The next start, on what was
      stored, gets to the same tip and accepts any bits there. */
  lemma RestartForgetsAdjustment(net: Network)
    requires PowPasses(net) && Retargets(net) && 8 <= net.interval && 2 * net.interval <= AHEAD
    ensures exists n :: Reached(Start(net), n) && Clean(n.chain.store) && Demands(n.chain.tree)
                        && Forgets(net, n.chain.store.table, n.chain.tree.tip)
  {
    var n := MixedReached(net, 2 * net.interval - 1);
    SafeIsValid(net, n);
    EpochEnds(net, n);
  }
}
