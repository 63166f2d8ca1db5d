/** The difficulty rule for clients that do not start at genesis, and on forks: from which
    adjustment on, and under which condition, what the height index makes a header follow is
    the rule of its own ancestors. */
module GraphAudit {
  import opened Hashes
  import opened Graph
  import opened GraphInvariant
  import opened GraphIndex
  import opened GraphRetarget
  import opened GraphRuns

  // ---------- The rule, and what the index looks up ----------

  /** `x`, at height `k`, has its parent's bits off adjustments, and the retarget of its own
      ancestors at them. */
  ghost predicate OwnRule(net: Network, x: Hash, k: nat) {
    && x.Of?
    && if IsAdjustment(net, k)
       then net.interval <= Depth(x.header.prev) && x.header.bits == OwnRetarget(net, x.header.prev)
       else x.header.prev.Of? && x.header.bits == x.header.prev.header.bits
  }

  /** The height is above the root, or is that of an indexed root. */
  ghost predicate CanLookUp(t: Tree, k: int) {
    t.origin.height + 1 < k || (t.origin.height + 1 == k && RootIndexed(t))
  }

  lemma ExactEntry(t: Tree, k: nat)
    requires Valid(t) && Exact(t) && t.headers != map[] && CanLookUp(t, k) && k <= t.tip.height
    ensures t.origin.height < k && k in t.index && t.index[k] == AtHeight(t, k)
  {
    ExactIsTheWalk(t, k);
    RootByDepth(t, AtHeight(t, k));
  }

  /** At an adjustment up to one above the tip, the two lookups find active headers. */
  lemma LookupIsActive(t: Tree, k: nat)
    requires Valid(t) && Exact(t) && t.headers != map[] && CanLookUp(t, k - t.net.interval) && k <= t.tip.height + 1
    requires t.net.interval <= k
    ensures t.origin.height < k - t.net.interval <= k - 1 <= t.tip.height
    ensures ComputeNextWork(t, k)
         == Some(t.net.retarget(t.headers[AtHeight(t, k - t.net.interval)].header, t.headers[AtHeight(t, k - 1)].header))
  {
    ExactEntry(t, k - t.net.interval);
    ExactEntry(t, k - 1);
  }

  /** Above the tip there is nothing to look up. */
  lemma LookupAboveTip(t: Tree, k: nat)
    requires Valid(t) && Exact(t) && t.headers != map[] && t.tip.height + 1 < k
    ensures ComputeNextWork(t, k) == None
  {
    if k - 1 in t.index {
      ExactIsTheWalk(t, k - 1);
    }
  }

  /** The active headers that are looked up are the ancestors of an active parent. */
  lemma ActiveLookupIsOwn(t: Tree, parent: Hash)
    requires Valid(t) && Exact(t) && Active(t, parent)
    requires var k := t.headers[parent].height + 1; t.net.interval <= k && CanLookUp(t, k - t.net.interval)
    ensures t.net.interval <= Depth(parent)
    ensures ComputeNextWork(t, t.headers[parent].height + 1) == Some(OwnRetarget(t.net, parent))
  {
    var k := t.headers[parent].height + 1;
    ActiveIsAtHeight(t, parent);
    LookupIsActive(t, k);
    var first := AtHeight(t, k - t.net.interval);
    assert Placed(t, parent) && Placed(t, first);
    var back := Back(parent, t.net.interval - 1);
    BackDescends(parent, t.net.interval - 1);
    DescendsTransitive(t.tip.hash, parent, back);
    AncestorsAreOrdered(t.tip.hash, first, back);
  }

  lemma BackDescends(x: Hash, n: nat)
    requires n <= Depth(x)
    ensures Descends(x, Back(x, n))
  {
  }

  // ---------- When a fork is asked for what its own ancestors demand ----------

  /** The two active headers that the lookup for a child of `parent` finds. */
  ghost predicate LooksUpOwn(t: Tree, parent: Hash)
    requires Valid(t) && t.headers != map[] && parent in t.headers
  {
    var k := t.headers[parent].height + 1;
    && t.net.interval <= Depth(parent) && t.origin.height < k - t.net.interval && k <= t.tip.height + 1
    && t.net.retarget(t.headers[AtHeight(t, k - t.net.interval)].header, t.headers[AtHeight(t, k - 1)].header)
       == OwnRetarget(t.net, parent)
  }

  ghost predicate AsksOwn(t: Tree, parent: Hash)
    requires parent in t.headers
  {
    t.net.interval <= Depth(parent)
    && ComputeNextWork(t, t.headers[parent].height + 1) == Some(OwnRetarget(t.net, parent))
  }

  /** A child at an adjustment is asked for the retarget of its own ancestors if and only if it
      is not taller than the active chain by more than one, and the active headers at those
      heights give the same retarget. */
  lemma AsksOwnIff(t: Tree, parent: Hash)
    requires Valid(t) && Exact(t) && parent in t.headers
    requires var k := t.headers[parent].height + 1; t.net.interval <= k && CanLookUp(t, k - t.net.interval)
    ensures AsksOwn(t, parent) <==> LooksUpOwn(t, parent)
  {
    var k := t.headers[parent].height + 1;
    if k <= t.tip.height + 1 {
      LookupIsActive(t, k);
    } else {
      LookupAboveTip(t, k);
    }
  }

  /** Above an active parent it always is. */
  lemma ActiveParentAsksOwn(t: Tree, parent: Hash)
    requires Valid(t) && Exact(t) && Active(t, parent)
    requires var k := t.headers[parent].height + 1; t.net.interval <= k && CanLookUp(t, k - t.net.interval)
    ensures AsksOwn(t, parent)
  {
    ActiveLookupIsOwn(t, parent);
  }

  /** A header with the bits that its own ancestors demand is refused at an adjustment if and
      only if the active headers of those heights give another retarget. */
  lemma OwnBitsRefusedIff(t: Tree, h: Header, inherited: Option<Bits>)
    requires Valid(t) && Exact(t) && h.prev in t.headers && Retargets(t.net)
    requires t.net.interval <= Depth(h.prev) && h.bits == OwnRetarget(t.net, h.prev)
    requires var k := t.headers[h.prev].height + 1;
             t.net.interval <= k && CanLookUp(t, k - t.net.interval) && IsAdjustment(t.net, k)
    ensures BadBits(NextWork(t, t.headers[h.prev].height + 1, inherited), h)
       <==> t.headers[h.prev].height <= t.tip.height && !LooksUpOwn(t, h.prev)
  {
    AsksOwnIff(t, h.prev);
    if t.headers[h.prev].height <= t.tip.height {
      LookupIsActive(t, t.headers[h.prev].height + 1);
    } else {
      LookupAboveTip(t, t.headers[h.prev].height + 1);
    }
  }

  // ---------- Trees that are audited from an adjustment on ----------

  /** From the adjustment at `first` on, the lookups have what they need. */
  ghost predicate Auditable(t: Tree, first: nat) {
    && Retargets(t.net) && Valid(t) && Exact(t)
    && IsAdjustment(t.net, first) && t.net.interval <= first && CanLookUp(t, first - t.net.interval)
  }

  /** The demand that a tip hands down is its own bits. */
  ghost predicate HandsDown(t: Tree, tip: Tip, first: nat) {
    first <= tip.height ==> tip.hash in t.headers && tip.nextWork == Some(t.headers[tip.hash].header.bits)
  }

  ghost predicate KeepsOwn(t: Tree, x: Hash, first: nat)
    requires x in t.headers
  {
    first <= t.headers[x].height ==> OwnRule(t.net, x, t.headers[x].height)
  }

  /** Active headers from `first` on keep the rule of their own ancestors. */
  ghost predicate AuditedActive(t: Tree, first: nat) {
    && Auditable(t, first) && HandsDown(t, t.tip, first)
    && forall x | Active(t, x) :: KeepsOwn(t, x, first)
  }

  ghost function Tips(t: Tree): set<Tip> {
    {t.tip} + set f | f in t.forks
  }

  /** So do all stored headers, and the tip and every candidate hand down their own bits. */
  ghost predicate AuditedStored(t: Tree, first: nat) {
    && Auditable(t, first)
    && (forall f | f in Tips(t) :: HandsDown(t, f, first))
    && forall x | x in t.headers :: KeepsOwn(t, x, first)
  }

  lemma LaterLookup(t: Tree, first: nat, k: nat)
    requires Auditable(t, first) && first <= k
    ensures t.net.interval <= k && CanLookUp(t, k - t.net.interval)
  {
  }

  /** From `first` on, the tip accepts a child if and only if it keeps the rule. */
  lemma TipDemandsRule(t: Tree, h: Header, first: nat)
    requires Auditable(t, first) && HandsDown(t, t.tip, first) && h.prev == t.tip.hash && first <= t.tip.height + 1
    ensures Accept(t, h) == ExtendTip(t, h)
    ensures Accept(t, h).1.Accepted? <==> OwnRule(t.net, h.BlockHash(), t.tip.height + 1)
    ensures Accept(t, h).1.Accepted? ==> Accept(t, h).0.tip.nextWork == Some(h.bits)
  {
    assert t.headers != map[];
    assert Active(t, t.tip.hash) && Placed(t, t.tip.hash);
    LaterLookup(t, first, t.tip.height + 1);
    if IsAdjustment(t.net, t.tip.height + 1) {
      ActiveLookupIsOwn(t, t.tip.hash);
    }
  }

  // ---------- Steps ----------

  lemma AcceptKeepsRootIndexed(t: Tree, h: Header)
    requires Valid(t) && RootIndexed(t)
    ensures RootIndexed(Accept(t, h).0)
  {
    var t' := Accept(t, h).0;
    if h.prev == t.tip.hash {
      ExtensionKeepsRootIndexed(t, h);
    } else if Reorganizes(t, h) {
      ReorganizationShape(t, h);
      forall x | IsRoot(t', x) ensures t'.headers[x].height in t'.index {
        assert Placed(t, h.prev);
        assert IsRoot(t, x);
        SwitchOnlyAdds(t', t.index, h.BlockHash(), t.headers[x].height);
      }
    } else {
      NotReorganizing(t, h);
      AcceptValid(t, h);
      forall x | IsRoot(t', x) ensures t'.headers[x].height in t'.index {
        OnlyRoot(t, t', x);
      }
    }
  }

  lemma AcceptKeepsAuditable(t: Tree, h: Header, first: nat)
    requires Auditable(t, first)
    ensures Auditable(Accept(t, h).0, first) <==> TallEnough(t, h)
  {
    AcceptValid(t, h);
    if RootIndexed(t) {
      AcceptKeepsRootIndexed(t, h);
    }
    if TallEnough(t, h) {
      AcceptKeepsExact(t, h);
    } else {
      ReorganizationShape(t, h);
      ReorganizationKeepsIndexIff(t, h);
    }
  }

  lemma ExtensionKeepsActive(t: Tree, h: Header, first: nat)
    requires AuditedActive(t, first) && h.prev == t.tip.hash
    requires first <= t.tip.height + 1 && Accept(t, h).1.Accepted? ==> OwnRule(t.net, h.BlockHash(), t.tip.height + 1)
    ensures forall x | Active(Accept(t, h).0, x) :: KeepsOwn(Accept(t, h).0, x, first)
  {
    assert Accept(t, h) == ExtendTip(t, h);
    if Accept(t, h).1.Accepted? {
      forall x | Active(Accept(t, h).0, x) ensures KeepsOwn(Accept(t, h).0, x, first) {
        ExtensionActive(t, h, x);
      }
    }
  }

  /** In every step that is no reorganization, active headers keep the rule, and the tip accepts
      exactly the children that keep it. */
  lemma AcceptKeepsAuditedActive(t: Tree, h: Header, first: nat)
    requires AuditedActive(t, first) && !Reorganizes(t, h)
    ensures AuditedActive(Accept(t, h).0, first)
    ensures h.prev == t.tip.hash && first <= t.tip.height + 1 ==>
              (Accept(t, h).1.Accepted? <==> OwnRule(t.net, h.BlockHash(), t.tip.height + 1))
  {
    var t' := Accept(t, h).0;
    AcceptValid(t, h);
    AcceptKeepsAuditable(t, h, first);
    if h.prev == t.tip.hash {
      if first <= t.tip.height + 1 {
        TipDemandsRule(t, h, first);
      }
      ExtensionKeepsActive(t, h, first);
    } else {
      NotReorganizing(t, h);
      forall x | Active(t', x) ensures KeepsOwn(t', x, first) {
        assert Placed(t', x);
        AncestorsAreStored(t, t.tip.hash, x);
        assert Active(t, x);
      }
    }
  }

  // ---------- Steps that may reorganize ----------

  /** `h` is new and has a stored parent other than the tip. */
  ghost predicate Forks(t: Tree, h: Header) {
    h.prev in t.headers && h.prev != t.tip.hash && h.BlockHash() !in t.headers
  }

  /** What the tree asks of `h`: what the candidate hands down, or the bits of its parent. */
  ghost function ForkDemand(t: Tree, h: Header): Option<Bits>
    requires h.prev in t.headers
  {
    var i, parent := Position(t.forks, h.prev), t.headers[h.prev];
    NextWork(t, parent.height + 1, if i < |t.forks| then t.forks[i].nextWork else Some(parent.header.bits))
  }

  /** A fork step stores nothing, or `h` under one new tip. */
  lemma ForkStep(t: Tree, h: Header)
    requires Valid(t) && Forks(t, h)
    ensures var t' := Accept(t, h).0;
            if BadBits(ForkDemand(t, h), h) then t'.headers == t.headers && Tips(t') <= Tips(t)
            else var k := t.headers[h.prev].height + 1;
                 && t'.headers == WithLeaf(t, h, k).headers
                 && Tip(h.BlockHash(), k, ForkDemand(t, h)) in Tips(t')
                 && Tips(t') <= Tips(t) + {Tip(h.BlockHash(), k, ForkDemand(t, h))}
  {
    var i := Position(t.forks, h.prev);
    var t' := Accept(t, h).0;
    if i < |t.forks| {
      var kept := SwapRemove(t.forks, i);
      assert forall f | f in kept :: f in t.forks;
      var tip := Tip(h.BlockHash(), t.headers[h.prev].height + 1, ForkDemand(t, h));
      assert t'.forks == kept || t'.forks == kept + [tip] || t'.forks == kept + [t.tip];
    }
  }

  /** At an adjustment, the bits of a fork header pass a demand that is not its own. */
  ghost predicate Strays(t: Tree, h: Header, first: nat) {
    && Forks(t, h)
    && var k := t.headers[h.prev].height + 1;
       first <= k && IsAdjustment(t.net, k) && !BadBits(ComputeNextWork(t, k), h) && !AsksOwn(t, h.prev)
  }

  lemma ForkDemandOffAdjustment(t: Tree, h: Header, first: nat)
    requires AuditedStored(t, first) && Forks(t, h)
    requires var k := t.headers[h.prev].height + 1; first <= k && !IsAdjustment(t.net, k)
    ensures h.prev.Of? && ForkDemand(t, h) == Some(h.prev.header.bits)
  {
    assert Placed(t, h.prev);
    var i := Position(t.forks, h.prev);
    if i < |t.forks| {
      assert GoodCandidate(t, t.forks[i]);
      assert t.forks[i] in Tips(t);
    }
  }

  lemma StoredForkKeepsOwnIff(t: Tree, h: Header, first: nat)
    requires AuditedStored(t, first) && Forks(t, h) && !BadBits(ForkDemand(t, h), h)
    requires first <= t.headers[h.prev].height + 1
    ensures OwnRule(t.net, h.BlockHash(), t.headers[h.prev].height + 1) && ForkDemand(t, h) == Some(h.bits)
       <==> !Strays(t, h, first)
  {
    if !IsAdjustment(t.net, t.headers[h.prev].height + 1) {
      ForkDemandOffAdjustment(t, h, first);
    }
  }

  /** One more header and one more tip: the others stay audited. */
  lemma AddedLeafAuditedIff(t: Tree, t': Tree, h: Header, tip: Tip, first: nat)
    requires AuditedStored(t, first) && Auditable(t', first) && t'.net == t.net
    requires Forks(t, h) && tip.hash == h.BlockHash() && tip.height == t.headers[h.prev].height + 1
    requires t'.headers == WithLeaf(t, h, tip.height).headers
    requires tip in Tips(t') && Tips(t') <= Tips(t) + {tip}
    ensures AuditedStored(t', first)
       <==> (first <= tip.height ==> OwnRule(t.net, h.BlockHash(), tip.height) && tip.nextWork == Some(h.bits))
  {
    assert KeepsOwn(t', h.BlockHash(), first) <==> (first <= tip.height ==> OwnRule(t.net, h.BlockHash(), tip.height));
    assert HandsDown(t', tip, first) <==> (first <= tip.height ==> tip.nextWork == Some(h.bits));
    forall x | x in t.headers ensures KeepsOwn(t', x, first) {
      assert KeepsOwn(t, x, first);
    }
    forall f | f in Tips(t) ensures HandsDown(t', f, first) {
      assert HandsDown(t, f, first);
    }
  }

  lemma ForkKeepsStoredIff(t: Tree, h: Header, first: nat)
    requires AuditedStored(t, first) && Forks(t, h) && TallEnough(t, h)
    ensures AuditedStored(Accept(t, h).0, first) <==> !Strays(t, h, first)
  {
    var t', k := Accept(t, h).0, t.headers[h.prev].height + 1;
    AcceptValid(t, h);
    AcceptKeepsAuditable(t, h, first);
    ForkStep(t, h);
    if !BadBits(ForkDemand(t, h), h) {
      if first <= k {
        StoredForkKeepsOwnIff(t, h, first);
      }
      AddedLeafAuditedIff(t, t', h, Tip(h.BlockHash(), k, ForkDemand(t, h)), first);
    } else {
      forall x | x in t'.headers ensures KeepsOwn(t', x, first) {
        assert KeepsOwn(t, x, first);
      }
      forall f | f in Tips(t') ensures HandsDown(t', f, first) {
        assert HandsDown(t, f, first);
      }
    }
  }

  lemma ExtensionKeepsStored(t: Tree, h: Header, first: nat)
    requires AuditedStored(t, first) && h.prev == t.tip.hash
    ensures AuditedStored(Accept(t, h).0, first)
  {
    var t' := Accept(t, h).0;
    AcceptKeepsAuditable(t, h, first);
    assert t.tip in Tips(t);
    TipHasNoStoredChild(t, h);
    if first <= t.tip.height + 1 {
      TipDemandsRule(t, h, first);
    }
    forall f | f in Tips(t') ensures HandsDown(t', f, first) {
      if f != t'.tip {
        assert f in Tips(t);
      }
    }
    forall x | x in t'.headers ensures KeepsOwn(t', x, first) {
      if x in t.headers {
        assert KeepsOwn(t, x, first);
      }
    }
  }

  /** Every step, reorganizations included, keeps all stored headers to the rule of their own
      ancestors if and only if a reorganization is tall enough and no fork header strays. */
  lemma AcceptKeepsAuditedStoredIff(t: Tree, h: Header, first: nat)
    requires AuditedStored(t, first)
    ensures AuditedStored(Accept(t, h).0, first) <==> TallEnough(t, h) && !Strays(t, h, first)
  {
    AcceptKeepsAuditable(t, h, first);
    if h.prev == t.tip.hash {
      ExtensionKeepsStored(t, h, first);
    } else if Forks(t, h) {
      if TallEnough(t, h) {
        ForkKeepsStoredIff(t, h, first);
      }
    } else {
      UnrelatedHeader(t, h);
    }
  }

  lemma UnrelatedHeader(t: Tree, h: Header)
    requires Valid(t) && h.prev != t.tip.hash && !Forks(t, h)
    ensures Accept(t, h).0 == t && !Reorganizes(t, h)
  {
    var i := Position(t.forks, h.prev);
    if i < |t.forks| {
      assert GoodCandidate(t, t.forks[i]);
    }
  }

  // ---------- Runs from each start ----------

  /** Where the lookups of a new tree begin: above the checkpoint, above the stored header, or
      at genesis. */
  lemma StartCanLookUp(net: Network, tip: Tip, height: nat, header: Header, k: int)
    ensures CanLookUp(FromTip(net, tip), k) <==> tip.height < k
    ensures CanLookUp(FromHeader(net, height, header), k) <==> height < k
    ensures CanLookUp(FromGenesis(net), k) <==> 0 <= k
  {
    StartsExact(net, tip, height, header);
    assert IsRoot(FromHeader(net, height, header), header.BlockHash());
  }

  ghost predicate RuleBegins(t: Tree, first: nat) {
    && IsStart(t) && Retargets(t.net)
    && IsAdjustment(t.net, first) && t.net.interval <= first && CanLookUp(t, first - t.net.interval)
  }

  lemma StartIsAudited(t: Tree, first: nat)
    requires RuleBegins(t, first)
    ensures AuditedStored(t, first) && AuditedActive(t, first)
  {
    StartFacts(t);
    assert t.forks == [] && t.tip.height < first && forall x | x in t.headers :: t.headers[x].height <= t.tip.height;
  }

  lemma {:induction false} ReachableAuditedActive(t: Tree, hs: seq<Header>, first: nat)
    requires AuditedActive(t, first) && EveryStep(NoReorganization, t, hs)
    ensures AuditedActive(AcceptAll(t, hs), first)
    decreases |hs|
  {
    if hs != [] {
      AcceptKeepsAuditedActive(t, hs[0], first);
      ReachableAuditedActive(Accept(t, hs[0]).0, hs[1..], first);
    }
  }

  /** From a checkpoint, a stored header or genesis: in every run without a reorganization, each
      active header from the first adjustment that can be looked up on keeps the rule of its own
      ancestors. */
  lemma RuleFromStart(t: Tree, hs: seq<Header>, first: nat)
    requires RuleBegins(t, first) && EveryStep(NoReorganization, t, hs)
    ensures AuditedActive(AcceptAll(t, hs), first)
  {
    StartIsAudited(t, first);
    ReachableAuditedActive(t, hs, first);
  }

  ghost function KeepsToOwn(first: nat): (Tree, Header) -> bool {
    (t, h) => TallEnough(t, h) && !Strays(t, h, first)
  }

  lemma {:induction false} ReachableAuditedStored(t: Tree, hs: seq<Header>, first: nat)
    requires AuditedStored(t, first) && EveryStep(KeepsToOwn(first), t, hs)
    ensures AuditedStored(AcceptAll(t, hs), first)
    decreases |hs|
  {
    if hs != [] {
      AcceptKeepsAuditedStoredIff(t, hs[0], first);
      ReachableAuditedStored(Accept(t, hs[0]).0, hs[1..], first);
    }
  }

  /** With reorganizations too, as long as they are tall enough and no fork header strays, and
      then of every stored header. */
  lemma RuleWithForks(t: Tree, hs: seq<Header>, first: nat)
    requires RuleBegins(t, first) && EveryStep(KeepsToOwn(first), t, hs)
    ensures AuditedStored(AcceptAll(t, hs), first) && AuditedActive(AcceptAll(t, hs), first)
  {
    StartIsAudited(t, first);
    ReachableAuditedStored(t, hs, first);
    assert AcceptAll(t, hs).tip in Tips(AcceptAll(t, hs));
  }

  // ---------- A valid fork that is refused ----------

  /** Two blocks on genesis, with the same bits, that make the next adjustment come out differently. */
  ghost predicate Rivals(net: Network, a: Header, b: Header) {
    && Retargets(net) && net.interval == 2 && a.prev == net.genesis.BlockHash() == b.prev
    && a.bits == net.genesis.bits == b.bits && net.retarget(net.genesis, a) != net.retarget(net.genesis, b)
  }

  ghost function RivalTree(net: Network, a: Header, b: Header): Tree {
    var g, w := net.genesis, net.genesis.bits.work;
    Tree(net, Origin(g.prev, -1), map[0 := g.BlockHash(), 1 := a.BlockHash()],
         map[g.BlockHash() := FreshNode(0, g, w), a.BlockHash() := FreshNode(1, a, 2 * w), b.BlockHash() := FreshNode(1, b, 2 * w)],
         Tip(a.BlockHash(), 1, Some(g.bits)), [Tip(b.BlockHash(), 1, Some(g.bits))])
  }

  lemma RivalsReached(net: Network, a: Header, b: Header)
    requires Rivals(net, a, b)
    ensures Reached(FromGenesis(net), RivalTree(net, a, b))
  {
    var g, start := net.genesis, FromGenesis(net);
    assert Depth(a.BlockHash()) == Depth(g.BlockHash()) + 1 == Depth(b.BlockHash());
    ReachedStart(start);
    ReachedStep(start, start, a);
    var t := Accept(start, a).0;
    assert t == ExtendTip(start, a).0;
    ReachedStep(start, t, b);
    assert Accept(t, b) == StartFork(t, b);
    assert Accept(t, b).0.headers == RivalTree(net, a, b).headers;
  }

  lemma BackOne(h: Header)
    ensures 1 <= Depth(h.BlockHash()) && Back(h.BlockHash(), 1) == h.prev
  {
    assert AncestorAt(h.BlockHash(), Depth(h.prev)) == AncestorAt(h.prev, Depth(h.prev));
  }

  /** From genesis, with an adjustment every two blocks: a block on the fork that has the retarget
      of its own ancestors is refused, and the fork is given up. */
  lemma ValidForkIsRefused(net: Network, a: Header, b: Header)
    requires Rivals(net, a, b)
    ensures exists t :: Reached(FromGenesis(net), t) && IsCandidate(t, b.BlockHash()) && net.interval <= Depth(b.BlockHash())
              && forall h: Header | h.prev == b.BlockHash() && h.bits == OwnRetarget(net, h.prev) ::
                   Accept(t, h).1.Rejected? && !IsCandidate(Accept(t, h).0, h.prev)
  {
    var g, t := net.genesis, RivalTree(net, a, b);
    assert Depth(a.BlockHash()) == Depth(g.BlockHash()) + 1 == Depth(b.BlockHash());
    RivalsReached(net, a, b);
    assert t.forks[0].hash == b.BlockHash();
    BackOne(b);
    forall h: Header | h.prev == b.BlockHash() && h.bits == OwnRetarget(net, h.prev)
      ensures Accept(t, h).1.Rejected? && !IsCandidate(Accept(t, h).0, h.prev)
    {
      assert Depth(h.BlockHash()) == Depth(b.BlockHash()) + 1;
      assert Accept(t, h) == ExtendCandidate(t, h, 0);
      assert ComputeNextWork(t, 2) == Some(net.retarget(g, a));
    }
  }
}
