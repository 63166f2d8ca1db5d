/** A run in which a stale entry of the height index becomes the stop hash of a request, so that
    a reply breaks the chain of filter headers. Two thousand headers make the entry reachable. */
module StaleStops {
  import opened Hashes
  import opened Filters
  import opened Graph
  import opened GraphInvariant
  import opened GraphIndex
  import opened GraphFilters
  import opened FilterHeaders
  import opened FilterHeaderChain
  import opened FilterRequests
  import opened ChainState
  import opened NodeState
  import opened NodeRuns
  import opened NodeMoves
  import opened FailingRuns

  const BASE: Header := Child(Anchor(0), 1, 0)
  const LIVE: Header := Child(BASE.BlockHash(), 1, 1)
  const LIVE3: Header := Child(LIVE.BlockHash(), 5_000, 1)
  const LIGHT: Bits := Bits(1, 1)
  const STALE: nat := 2_002

  /** The header at height `k` of the branch that is going to lose. */
  function Dead(k: nat): Header
    decreases k
  {
    if k <= 2 then Child(BASE.BlockHash(), 1, 2) else Child(Dead(k - 1).BlockHash(), 1, 2)
  }

  lemma {:induction false} DeadDepth(k: nat)
    requires 2 <= k
    ensures Depth(Dead(k).BlockHash()) == k && Dead(k).bits == LIGHT
    decreases k
  {
    if 2 < k {
      DeadDepth(k - 1);
    }
  }

  lemma {:induction false} DeadDescends(k: nat)
    requires 3 <= k
    ensures Descends(Dead(k).BlockHash(), Dead(3).BlockHash())
    decreases k
  {
    if 3 < k {
      DeadDescends(k - 1);
    }
  }

  lemma Kin()
    ensures Depth(BASE.BlockHash()) == 1 && Depth(LIVE.BlockHash()) == 2 && Depth(LIVE3.BlockHash()) == 3
    ensures Dead(2) != LIVE && Dead(3) != LIVE3 && Dead(3).prev == Dead(2).BlockHash()
    ensures Depth(Dead(2).BlockHash()) == 2 && Depth(Dead(3).BlockHash()) == 3
  {
    DeadDepth(2);
    DeadDepth(3);
  }

  ghost function One(): Commitment { Committing(Seed(0), 1) }

  ghost function Two(): Commitment { Committing(One().header, 1) }

  ghost function Both(): CFHeaders {
    CFHeaders(LIVE.BlockHash(), Seed(0), [FilterHash(1), FilterHash(1)])
  }

  /** The base and one header on it. */
  ghost function ShortTree(net: Network, first: Option<Commitment>, second: Option<Commitment>): Tree {
    var (r, l) := (BASE.BlockHash(), LIVE.BlockHash());
    Tree(net, Origin(Anchor(0), 0), map[1 := r, 2 := l],
         map[r := BlockNode(1, BASE, 1, first, false), l := BlockNode(2, LIVE, 2, second, false)], Tip(l, 2, None), [])
  }

  lemma ShortTreeState(t: Tree, net: Network, first: Option<Commitment>, second: Option<Commitment>)
    requires t == ShortTree(net, first, second)
    ensures AllCommitted(t) <==> first.Some? && second.Some?
    ensures !AllChecked(t)
    ensures first.None? && second.None? ==> NextRequest(t) == FilterHeaderRequest(1, LIVE.BlockHash(), None)
  {
    Kin();
    assert Active(t, LIVE.BlockHash()) && Active(t, BASE.BlockHash());
    assert UncommittedRun(t.headers, Anchor(0), 1) == (1, None);
    assert UncommittedRun(t.headers, LIVE.BlockHash(), 2)
        == if second.Some? then (2, Some(second.value.header)) else UncommittedRun(t.headers, BASE.BlockHash(), 2);
  }

  lemma BothCommit(net: Network)
    ensures BatchOf(Both()).inner == [One(), Two()]
    ensures Commit(ShortTree(net, None, None), BatchOf(Both())) == ShortTree(net, Some(One()), Some(Two()))
  {
    Kin();
    var hashes := [FilterHash(1), FilterHash(1)];
    assert hashes[1..] == [FilterHash(1)] && hashes[1..][1..] == [];
    assert Chained(Seed(0), hashes) == [One()] + Chained(One().header, hashes[1..]);
    assert Chained(One().header, [FilterHash(1)]) == [Two()] + Chained(Two().header, []);
    var t := ShortTree(net, None, None);
    var cs := [One(), Two()];
    assert cs[..1] == [One()] && cs[..1][..0] == [];
    var hs := SetCommitment(t.headers, Two(), LIVE.BlockHash());
    assert PushBatch(t.headers, cs, LIVE.BlockHash()) == PushBatch(hs, [One()], BASE.BlockHash());
    var hs' := SetCommitment(hs, One(), BASE.BlockHash());
    assert PushBatch(hs, [One()], BASE.BlockHash()) == PushBatch(hs', [], Anchor(0)) == hs';
    assert hs' == ShortTree(net, Some(One()), Some(Two())).headers;
  }

  ghost function Start(net: Network): Client { NewClient(net, SecondMatches()) }

  lemma ShortCommitted(net: Network) returns (n: Client)
    requires AnyPow(net)
    ensures Reached(Start(net), n) && n.chain.tree == ShortTree(net, Some(One()), Some(Two()))
    ensures n.chain.heights == map[0 := 0] && n.chain.checkpoints == [] && OneAgrees(n)
  {
    Kin();
    n := OneHeaderLoaded(net, BASE, 1);
    GrowTip(n.chain.tree, LIVE);
    n := TakeHeader(Start(net), n, LIVE);
    n := HearHeight(Start(net), n, 0);
    assert n.chain.heights == map[0 := 0];
    ShortTreeState(n.chain.tree, net, None, None);
    BothCommit(net);
    ShortTreeState(ShortTree(net, Some(One()), Some(Two())), net, Some(One()), Some(Two()));
    n := AskAndCommit(Start(net), n, Both());
  }

  // ---------- The long branch ----------

  /** The branch of light headers is active up to height `m`; the live header is a candidate. */
  ghost predicate Long(t: Tree, net: Network, m: nat) {
    && 3 <= m && t.net == net && t.origin == Origin(Anchor(0), 0)
    && t.tip == Tip(Dead(m).BlockHash(), m, Some(LIGHT)) && t.forks == [Tip(LIVE.BlockHash(), 2, None)]
    && m in t.index && t.index[m] == t.tip.hash
    && t.tip.hash in t.headers && t.headers[t.tip.hash].accWork == m
    && LIVE.BlockHash() in t.headers && t.headers[LIVE.BlockHash()].header == LIVE
    && t.headers[LIVE.BlockHash()].height == 2 && t.headers[LIVE.BlockHash()].accWork == 2
    && t.headers[LIVE.BlockHash()].commitment == Some(Two())
    && Dead(2).BlockHash() in t.headers && t.headers[Dead(2).BlockHash()].commitment == None
    && Dead(3).BlockHash() in t.headers && t.headers[Dead(3).BlockHash()].height == 3
    && t.headers[Dead(3).BlockHash()].header == Dead(3)
  }

  lemma LongStarts(t: Tree, net: Network)
    requires !Retargets(net) && t == ShortTree(net, Some(One()), Some(Two()))
    ensures Accept(t, Dead(2)).1.ExtendedFork? && Dead(2).BlockHash() !in t.headers && Dead(2).BlockHash() != t.tip.hash
    ensures var t1 := Accept(t, Dead(2)).0;
            && t1.tip == t.tip && t1.net == net && Dead(3).BlockHash() !in t1.headers && Dead(3).BlockHash() != t1.tip.hash
            && Accept(t1, Dead(3)).1.Reorganization? && Long(Accept(t1, Dead(3)).0, net, 3)
  {
    Kin();
    GrowFork(t, Dead(2));
    var t1 := Accept(t, Dead(2)).0;
    assert t1.forks == [Tip(Dead(2).BlockHash(), 2, Some(LIGHT))];
    GrowOnlyCandidate(t1, Dead(3));
    var hs := t1.headers[Dead(3).BlockHash() := FreshNode(3, Dead(3), 3)];
    var i3 := t1.index[3 := Dead(3).BlockHash()];
    var i2 := i3[2 := Dead(2).BlockHash()];
    assert Switch(hs, i2, BASE.BlockHash()) == Switched(i2, [], []);
    assert Switch(hs, i3, Dead(2).BlockHash()).index == i2;
    assert Switch(hs, t1.index, Dead(3).BlockHash()).index == i2;
  }

  lemma LongGrows(t: Tree, net: Network, m: nat)
    requires !Retargets(net) && Valid(t) && Long(t, net, m)
    ensures Accept(t, Dead(m + 1)).1.Accepted? && Long(Accept(t, Dead(m + 1)).0, net, m + 1)
    ensures Dead(m + 1).BlockHash() !in t.headers && Dead(m + 1).BlockHash() != t.tip.hash
  {
    TipHasNoStoredChild(t, Dead(m + 1));
    NewDeadGrows(t, net, m);
  }

  lemma NewDeadGrows(t: Tree, net: Network, m: nat)
    requires !Retargets(net) && Long(t, net, m) && Dead(m + 1).BlockHash() !in t.headers
    ensures Accept(t, Dead(m + 1)).1.Accepted? && Long(Accept(t, Dead(m + 1)).0, net, m + 1)
    ensures Dead(m + 1).BlockHash() != t.tip.hash
  {
    DeadDepth(m);
    DeadDepth(m + 1);
    assert Dead(m + 1).prev == Dead(m).BlockHash();
    GrowTip(t, Dead(m + 1));
    LongStays(t, Accept(t, Dead(m + 1)).0, net, m, Dead(m + 1).BlockHash());
  }

  lemma LongStays(t: Tree, t': Tree, net: Network, m: nat, x: Hash)
    requires Long(t, net, m) && x == Dead(m + 1).BlockHash() && x !in t.headers
    requires t' == t.(headers := t.headers[x := FreshNode(m + 1, Dead(m + 1), WorkOf(t, t.tip.hash) + 1)],
                      tip := Tip(x, m + 1, t.tip.nextWork), index := t.index[m + 1 := x])
    ensures Long(t', net, m + 1)
  {
  }

  ghost predicate LongState(n: Client, net: Network, m: nat) {
    && Long(n.chain.tree, net, m) && n.chain.heights == map[0 := AHEAD] && n.chain.checkpoints == [] && OneAgrees(n)
  }

  lemma LongReached(net: Network) returns (n: Client)
    requires AnyPow(net)
    ensures Reached(Start(net), n) && LongState(n, net, 3)
  {
    n := ShortCommitted(net);
    LongStarts(n.chain.tree, net);
    n := HearHeight(Start(net), n, AHEAD);
    assert n.chain.heights == map[0 := AHEAD];
    n := TakeHeader(Start(net), n, Dead(2));
    n := TakeReorganization(Start(net), n, Dead(3));
  }

  lemma LongStep(net: Network, n: Client, m: nat) returns (n': Client)
    requires AnyPow(net) && Reached(Start(net), n) && LongState(n, net, m) && m < STALE
    ensures Reached(Start(net), n') && LongState(n', net, m + 1)
  {
    ReachedBooks(Start(net), n);
    LongGrows(n.chain.tree, net, m);
    n' := TakeHeader(Start(net), n, Dead(m + 1));
  }

  lemma ReachedBooks(start: Client, n: Client)
    requires Reached(start, n)
    ensures Books(n) && Valid(n.chain.tree)
  {
    ReachedStep(start, n, Advance(false));
  }

  lemma {:induction false} LongerReached(net: Network, m: nat) returns (n: Client)
    requires AnyPow(net) && 3 <= m <= STALE
    ensures Reached(Start(net), n) && LongState(n, net, m)
    decreases m
  {
    if m == 3 {
      n := LongReached(net);
    } else {
      n := LongerReached(net, m - 1);
      n := LongStep(net, n, m - 1);
    }
  }

  // ---------- The stale stop hash ----------

  /** The live branch is active again, with one heavy header on it that is not committed. */
  ghost predicate Stale(t: Tree, net: Network) {
    && t.net == net && t.origin == Origin(Anchor(0), 0) && t.tip == Tip(LIVE3.BlockHash(), 3, None)
    && LIVE3.BlockHash() in t.headers && t.headers[LIVE3.BlockHash()] == FreshNode(3, LIVE3, 5_002)
    && LIVE.BlockHash() in t.headers && t.headers[LIVE.BlockHash()].commitment == Some(Two())
    && STALE in t.index && t.index[STALE] == Dead(STALE).BlockHash()
    && Dead(2).BlockHash() in t.headers && t.headers[Dead(2).BlockHash()].commitment == None
    && Dead(3).BlockHash() in t.headers && t.headers[Dead(3).BlockHash()].height == 3
    && t.headers[Dead(3).BlockHash()].header == Dead(3)
  }

  lemma ChildlessHasNoChild(t: Tree, h: Header)
    requires AllPlaced(t) && Childless(t, h.prev)
    ensures h.BlockHash() !in t.headers
  {
    assert forall x | x in t.headers :: Placed(t, x) && t.headers[x].header.prev != h.prev;
  }

  lemma LiveIsNew(t: Tree, net: Network)
    requires Valid(t) && Long(t, net, STALE)
    ensures LIVE3.BlockHash() !in t.headers && LIVE3.BlockHash() != t.tip.hash && LIVE.BlockHash() != t.tip.hash
  {
    Kin();
    DeadDepth(STALE);
    assert GoodCandidate(t, t.forks[0]);
    ChildlessHasNoChild(t, LIVE3);
  }

  lemma LiveWins(t: Tree, net: Network)
    requires !Retargets(net) && Valid(t) && Long(t, net, STALE)
    ensures Accept(t, LIVE3).1.Reorganization? && Stale(Accept(t, LIVE3).0, net)
  {
    Kin();
    LiveIsNew(t, net);
    GrowOnlyCandidate(t, LIVE3);
    var t' := Accept(t, LIVE3).0;
    AcceptValid(t, LIVE3);
    SwitchLeavesAbove(t', t.index, LIVE3.BlockHash(), STALE);
  }

  lemma LiveWon(net: Network) returns (n: Client)
    requires AnyPow(net)
    ensures Reached(Start(net), n) && Stale(n.chain.tree, net) && OneAgrees(n) && n.chain.heights == map[0 := AHEAD]
  {
    n := LongerReached(net, STALE);
    ReachedBooks(Start(net), n);
    LiveIsNew(n.chain.tree, net);
    LiveWins(n.chain.tree, net);
    n := TakeReorganization(Start(net), n, LIVE3);
  }

  lemma LiveReached(net: Network) returns (n: Client)
    requires AnyPow(net)
    ensures Reached(Start(net), n) && Stale(n.chain.tree, net) && OneAgrees(n) && n.chain.heights == map[0 := 0]
  {
    n := LiveWon(net);
    n := HearHeight(Start(net), n, 0);
    assert n.chain.heights == map[0 := 0];
  }

  lemma StaleRequest(t: Tree, net: Network)
    requires Valid(t) && Stale(t, net)
    ensures !AllCommitted(t)
    ensures NextRequest(t) == FilterHeaderRequest(3, Dead(STALE).BlockHash(), Some(Two().header))
    ensures Spans(t, NextRequest(t)) && InRange(t, NextRequest(t), Dead(3).BlockHash())
  {
    Kin();
    DeadDescends(STALE);
    assert Active(t, LIVE3.BlockHash());
    assert UncommittedRun(t.headers, LIVE.BlockHash(), 3) == (3, Some(Two().header));
  }

  lemma StaleAsked(net: Network) returns (n: Client)
    requires AnyPow(net)
    ensures Reached(Start(net), n) && OneAgrees(n) && Valid(n.chain.tree) && Stale(n.chain.tree, net)
    ensures n.chain.request.lastFilterHeaderRequest == Some(NextRequest(n.chain.tree))
  {
    n := LiveReached(net);
    ReachedBooks(Start(net), n);
    StaleRequest(n.chain.tree, net);
    SyncedTo(n.chain, 0);
    AskingIs(n.chain);
    n := AskNext(Start(net), n);
  }

  /** The stop hash is that of the dead branch. A reply that passes the checks is committed
      there, on a header whose parent is not committed. */
  lemma StaleStopBreaksChain(net: Network)
    requires AnyPow(net)
    ensures exists n :: Reached(Start(net), n) && !CommitmentsChain(n.chain.tree)
  {
    var n := StaleAsked(net);
    var message := BreakingReply(n.chain.tree, net);
    NextStatefulKeepsTree(n.chain.(tree := Commit(n.chain.tree, BatchOf(message))));
    n := TakeReply(Start(net), n, message);
  }

  lemma BreakingReply(t: Tree, net: Network) returns (message: CFHeaders)
    requires Valid(t) && Stale(t, net)
    ensures Judge(t, Some(NextRequest(t)), BatchOf(message)) == Counts && !CommitmentsChain(Commit(t, BatchOf(message)))
  {
    Kin();
    StaleRequest(t, net);
    WrongParentBreaks(t, NextRequest(t), Dead(3).BlockHash());
    message :| Judge(t, Some(NextRequest(t)), BatchOf(message)) == Counts && !CommitmentsChain(Commit(t, BatchOf(message)));
  }

  lemma NextStatefulKeepsTree(c: Chain)
    ensures NextStatefulMessage(c).0.tree == c.tree
  {
  }
}
