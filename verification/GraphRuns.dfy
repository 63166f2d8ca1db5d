/** Whole runs of `accept_header`, from each way of starting a tree, and the inputs on which
    the plain promises fail. */
module GraphRuns {
  import opened Hashes
  import opened Graph
  import opened GraphInvariant
  import opened GraphIndex
  import opened GraphWork
  import opened GraphRetarget

  ghost function AcceptAll(t: Tree, hs: seq<Header>): Tree
    decreases |hs|
  {
    if hs == [] then t else AcceptAll(Accept(t, hs[0]).0, hs[1..])
  }

  ghost predicate EveryStep(p: (Tree, Header) -> bool, t: Tree, hs: seq<Header>)
    decreases |hs|
  {
    hs == [] || (p(t, hs[0]) && EveryStep(p, Accept(t, hs[0]).0, hs[1..]))
  }

  ghost predicate IsStart(t: Tree) {
    || t == FromGenesis(t.net)
    || (exists tip :: t == FromTip(t.net, tip))
    || (exists height: nat, header :: t == FromHeader(t.net, height, header))
  }

  lemma StartFacts(t: Tree)
    requires IsStart(t)
    ensures Valid(t) && LeavesAreCandidates(t) && Exact(t)
  {
    StartsValid(t.net, t.tip, t.tip.height, t.net.genesis);
    StartsExact(t.net, t.tip, t.tip.height, t.net.genesis);
    if tip :| t == FromTip(t.net, tip) {
      StartsValid(t.net, tip, 0, t.net.genesis);
      StartsExact(t.net, tip, 0, t.net.genesis);
    } else if height: nat, header :| t == FromHeader(t.net, height, header) {
      StartsValid(t.net, t.tip, height, header);
      StartsExact(t.net, t.tip, height, header);
    }
  }

  /** Every reachable tree is well placed. */
  lemma {:induction false} ReachableValid(t: Tree, hs: seq<Header>)
    requires Valid(t)
    ensures Valid(AcceptAll(t, hs)) && AcceptAll(t, hs).net == t.net && AcceptAll(t, hs).origin == t.origin
    decreases |hs|
  {
    if hs != [] {
      AcceptValid(t, hs[0]);
      ReachableValid(Accept(t, hs[0]).0, hs[1..]);
    }
  }

  /** Every reachable tree whose reorganizations were tall enough has an exact index. */
  lemma {:induction false} ReachableExact(t: Tree, hs: seq<Header>)
    requires Valid(t) && Exact(t) && EveryStep(TallEnough, t, hs)
    ensures Exact(AcceptAll(t, hs))
    decreases |hs|
  {
    if hs != [] {
      AcceptValid(t, hs[0]);
      AcceptKeepsExact(t, hs[0]);
      ReachableExact(Accept(t, hs[0]).0, hs[1..]);
    }
  }

  ghost predicate KeepsCandidates(t: Tree, h: Header) { !DropsCandidate(t, h) }

  ghost predicate NoReorganization(t: Tree, h: Header) { !Reorganizes(t, h) }

  /** On a network without retargeting, started from a header, every run that drops no
      candidate keeps the best tip, all leaves and an exact index, whatever the forks. */
  lemma {:induction false} ReachableBest(t: Tree, hs: seq<Header>, bits: Bits)
    requires Valid(t) && Uniform(t, bits) && BestTip(t) && LeavesAreCandidates(t) && Exact(t)
    requires EveryStep(KeepsCandidates, t, hs)
    ensures var t' := AcceptAll(t, hs);
            Uniform(t', bits) && BestTip(t') && LeavesAreCandidates(t') && Exact(t')
    decreases |hs|
  {
    if hs != [] {
      UniformStep(t, hs[0], bits);
      AcceptKeepsExact(t, hs[0]);
      ReachableBest(Accept(t, hs[0]).0, hs[1..], bits);
    }
  }

  lemma BestChainFromStart(net: Network, height: nat, header: Header, hs: seq<Header>, genesis: bool)
    requires !Retargets(net)
    requires EveryStep(KeepsCandidates, if genesis then FromGenesis(net) else FromHeader(net, height, header), hs)
    ensures var t := AcceptAll(if genesis then FromGenesis(net) else FromHeader(net, height, header), hs);
            BestTip(t) && LeavesAreCandidates(t) && Exact(t)
  {
    var t := if genesis then FromGenesis(net) else FromHeader(net, height, header);
    StartsValid(net, t.tip, height, header);
    StartsExact(net, t.tip, height, header);
    StartsUniform(net, height, header);
    ReachableBest(t, hs, if genesis then net.genesis.bits else header.bits);
  }

  /** On a retargeting network, every run from genesis without a reorganization keeps each
      active header to the difficulty rule. */
  lemma {:induction false} ReachableAudited(t: Tree, hs: seq<Header>)
    requires Audited(t) && Retargets(t.net) && EveryStep(NoReorganization, t, hs)
    ensures Audited(AcceptAll(t, hs))
    decreases |hs|
  {
    if hs != [] {
      AcceptKeepsAudited(t, hs[0]);
      AcceptValid(t, hs[0]);
      ReachableAudited(Accept(t, hs[0]).0, hs[1..]);
    }
  }

  /** From genesis, each active header of such a run has its parent's bits off adjustments, and
      the retarget of its own ancestors at them. */
  lemma RuleFromGenesis(net: Network, hs: seq<Header>)
    requires Retargets(net) && EveryStep(NoReorganization, FromGenesis(net), hs)
    ensures Audited(AcceptAll(FromGenesis(net), hs)) && AllFollowRule(AcceptAll(FromGenesis(net), hs))
  {
    GenesisAudited(net);
    ReachableAudited(FromGenesis(net), hs);
  }

  // ---------- Where the plain promises fail ----------

  ghost predicate Reached(start: Tree, t: Tree) {
    exists hs :: t == AcceptAll(start, hs)
  }

  lemma ReachedStart(t: Tree)
    ensures Reached(t, t)
  {
    assert t == AcceptAll(t, []);
  }

  lemma {:induction false} AcceptOneMore(t: Tree, hs: seq<Header>, h: Header)
    ensures AcceptAll(t, hs + [h]) == Accept(AcceptAll(t, hs), h).0
    decreases |hs|
  {
    if hs == [] {
      assert (hs + [h])[1..] == [];
    } else {
      assert (hs + [h])[1..] == hs[1..] + [h];
      AcceptOneMore(Accept(t, hs[0]).0, hs[1..], h);
    }
  }

  lemma ReachedStep(start: Tree, t: Tree, h: Header)
    requires Reached(start, t)
    ensures Reached(start, Accept(t, h).0)
  {
    var hs :| t == AcceptAll(start, hs);
    AcceptOneMore(start, hs, h);
  }

  /** A child of the tip, on a tip that does not object to its bits. */
  lemma OneMore(start: Tree, t: Tree, a: Header) returns (t': Tree)
    requires Reached(start, t)
    requires !Retargets(t.net) && a.prev == t.tip.hash && !BadBits(t.tip.nextWork, a)
    ensures Reached(start, t')
    ensures var height := t.tip.height + 1;
            t' == t.(headers := t.headers[a.BlockHash() := FreshNode(height, a, TipWork(t) + a.bits.work)],
                     tip := Tip(a.BlockHash(), height, t.tip.nextWork),
                     index := t.index[height := a.BlockHash()])
  {
    ReachedStep(start, t, a);
    t' := ExtendTip(t, a).0;
  }

  /** A second child, with its parent's bits, of a block that is neither tip nor candidate. */
  lemma OneFork(start: Tree, t: Tree, b: Header) returns (t': Tree)
    requires Reached(start, t)
    requires !Retargets(t.net) && b.prev in t.headers && b.prev != t.tip.hash && t.forks == []
    requires b.BlockHash() !in t.headers && b.bits == t.headers[b.prev].header.bits
    ensures Reached(start, t')
    ensures var height := t.headers[b.prev].height + 1;
            t' == t.(headers := t.headers[b.BlockHash() := FreshNode(height, b, t.headers[b.prev].accWork + b.bits.work)],
                     forks := [Tip(b.BlockHash(), height, Some(b.bits))])
  {
    ReachedStep(start, t, b);
    t' := StartFork(t, b).0;
  }

  lemma OneDropped(start: Tree, t: Tree, wrong: Header) returns (t': Tree)
    requires Reached(start, t)
    requires !Retargets(t.net) && |t.forks| == 1 && t.forks[0].hash == wrong.prev
    requires wrong.prev in t.headers && wrong.prev != t.tip.hash && wrong.BlockHash() !in t.headers
    requires BadBits(t.forks[0].nextWork, wrong)
    ensures Reached(start, t') && t' == t.(forks := [])
  {
    ReachedStep(start, t, wrong);
    t' := ExtendCandidate(t, wrong, 0).0;
  }

  /** A candidate fork is lost when a bad extension of it is rejected. The good extension that
      follows then starts a fork, is not compared, and outworks the tip: blocks 1 and 1' on the
      root, a bad 2', and the good 2'. */
  lemma DroppedCandidateHidesBestChain(net: Network, root: Header, bad: Bits)
    requires !Retargets(net) && bad != root.bits
    ensures exists t :: Reached(FromHeader(net, 0, root), t) && !BestTip(t)
  {
    var a := Header(root.BlockHash(), root.bits, 1);
    var b := Header(root.BlockHash(), root.bits, 2);
    var t := DropThenExtend(net, root, a, b, Header(b.BlockHash(), bad, 3), Header(b.BlockHash(), root.bits, 4));
  }

  lemma DropThenExtend(net: Network, root: Header, a: Header, b: Header, wrong: Header, c: Header)
    returns (t: Tree)
    requires !Retargets(net) && root.bits == a.bits == b.bits == c.bits != wrong.bits
    requires a.prev == b.prev == root.BlockHash() && a != b
    requires wrong.prev == c.prev == b.BlockHash()
    ensures Reached(FromHeader(net, 0, root), t) && !BestTip(t)
  {
    var t0 := FromHeader(net, 0, root);
    ReachedStart(t0);
    var d := Depth(root.BlockHash());
    assert Depth(a.BlockHash()) == d + 1 == Depth(b.BlockHash());
    assert Depth(c.BlockHash()) == d + 2 == Depth(wrong.BlockHash());
    t := OneMore(t0, t0, a);
    t := OneFork(t0, t, b);
    t := OneDropped(t0, t, wrong);
    t := OneFork(t0, t, c);
    assert t.headers[c.BlockHash()].accWork == 3 * root.bits.work;
    assert TipWork(t) == 2 * root.bits.work;
  }

  /** A shorter branch may carry more work. Started from a bare checkpoint, the client puts no
      demand on bits: above the first block come three light blocks, while a fork keeps the
      first block's heavy bits and wins at height 3. The entry at height 4 then stays behind. */
  lemma ShorterBranchLeavesStaleEntry(net: Network, start: Hash, heavy: Bits, light: Bits)
    requires !Retargets(net) && 3 * light.work < 2 * heavy.work
    ensures exists t :: Reached(FromTip(net, Tip(start, 0, None)), t) && !Exact(t)
  {
    var r := Header(start, heavy, 0);
    var a2 := Header(r.BlockHash(), light, 0);
    var a3 := Header(a2.BlockHash(), light, 0);
    var a4 := Header(a3.BlockHash(), light, 0);
    var b2 := Header(r.BlockHash(), heavy, 1);
    var t := FourAndAFork(net, r, a2, a3, a4, b2);
    HeavierCandidateWins(FromTip(net, Tip(start, 0, None)), t, Header(b2.BlockHash(), heavy, 1));
  }

  lemma FourMore(net: Network, r: Header, a: Header, b: Header, c: Header) returns (t: Tree)
    requires !Retargets(net)
    requires a.prev == r.BlockHash() && b.prev == a.BlockHash() && c.prev == b.BlockHash()
    ensures Reached(FromTip(net, Tip(r.prev, 0, None)), t) && t.net == net && t.forks == []
    ensures t.tip == Tip(c.BlockHash(), 4, None) && 4 in t.index
    ensures t.headers.Keys == {r.BlockHash(), a.BlockHash(), b.BlockHash(), c.BlockHash()}
    ensures t.headers[r.BlockHash()] == FreshNode(1, r, r.bits.work)
    ensures TipWork(t) == r.bits.work + a.bits.work + b.bits.work + c.bits.work
  {
    var t0 := FromTip(net, Tip(r.prev, 0, None));
    ReachedStart(t0);
    var d := Depth(r.BlockHash());
    assert Depth(a.BlockHash()) == d + 1 && Depth(b.BlockHash()) == d + 2 && Depth(c.BlockHash()) == d + 3;
    t := OneMore(t0, t0, r);
    t := OneMore(t0, t, a);
    t := OneMore(t0, t, b);
    t := OneMore(t0, t, c);
  }

  lemma FourAndAFork(net: Network, r: Header, a: Header, b: Header, c: Header, fork: Header) returns (t: Tree)
    requires !Retargets(net)
    requires a.prev == r.BlockHash() && b.prev == a.BlockHash() && c.prev == b.BlockHash()
    requires fork.prev == r.BlockHash() && fork.bits == r.bits && fork != a
    ensures Reached(FromTip(net, Tip(r.prev, 0, None)), t) && t.net == net
    ensures t.tip.height == 4 && 4 in t.index
    ensures t.forks == [Tip(fork.BlockHash(), 2, Some(r.bits))]
    ensures t.headers.Keys == {r.BlockHash(), a.BlockHash(), b.BlockHash(), c.BlockHash(), fork.BlockHash()}
    ensures t.headers[fork.BlockHash()] == FreshNode(2, fork, 2 * r.bits.work) && t.tip.hash != fork.BlockHash()
    ensures TipWork(t) == r.bits.work + a.bits.work + b.bits.work + c.bits.work
  {
    var d := Depth(r.BlockHash());
    assert Depth(a.BlockHash()) == d + 1 == Depth(fork.BlockHash());
    assert Depth(b.BlockHash()) == d + 2 && Depth(c.BlockHash()) == d + 3;
    t := FourMore(net, r, a, b, c);
    t := OneFork(FromTip(net, Tip(r.prev, 0, None)), t, fork);
  }

  /** A heavier candidate, extended by one block and still shorter than the tip, wins. */
  lemma HeavierCandidateWins(start: Tree, t: Tree, h: Header)
    requires IsStart(start) && Reached(start, t) && !Retargets(t.net)
    requires |t.forks| == 1 && t.forks[0].hash == h.prev
    requires h.prev in t.headers && h.prev != t.tip.hash && h.BlockHash() !in t.headers
    requires !BadBits(t.forks[0].nextWork, h)
    requires TipWork(t) < t.headers[h.prev].accWork + h.bits.work
    requires t.headers[h.prev].height + 1 < t.tip.height
    ensures exists t' :: Reached(start, t') && !Exact(t')
  {
    var hs :| t == AcceptAll(start, hs);
    StartFacts(start);
    ReachableValid(start, hs);
    assert Accept(t, h) == ExtendCandidate(t, h, 0);
    ReachedStep(start, t, h);
    if Exact(t) {
      ReorganizationKeepsIndexIff(t, h);
    }
  }
}
