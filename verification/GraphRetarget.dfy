/** Difficulty adjustments: the lookups through the height index against the headers' own
    ancestors. */
module GraphRetarget {
  import opened Hashes
  import opened Graph
  import opened GraphInvariant
  import opened GraphIndex

  /** The ancestor `n` blocks back. */
  function Back(x: Hash, n: nat): (a: Hash)
    requires n <= Depth(x)
    ensures Depth(a) == Depth(x) - n
  {
    AncestorAt(x, Depth(x) - n)
  }

  /** The bits that the consensus rule demands above `parent`, read off its own ancestors. */
  ghost function OwnRetarget(net: Network, parent: Hash): Bits
    requires net.interval <= Depth(parent)
  {
    net.retarget(Back(parent, net.interval - 1).header, parent.header)
  }

  /** What a lookup at the next adjustment finds: the retarget of the tip's own ancestors if
      the block one interval back is indexed, and otherwise nothing to compare against. */
  lemma AdjustmentLookup(t: Tree, inherited: Option<Bits>)
    requires Valid(t) && Exact(t) && t.headers != map[]
    requires Retargets(t.net) && IsAdjustment(t.net, t.tip.height + 1)
    requires t.origin.height + 1 < t.tip.height
    ensures var k, first := t.tip.height + 1, t.tip.height + 1 - t.net.interval;
            if t.origin.height + 1 < first || (t.origin.height + 1 == first && RootIndexed(t))
            then t.net.interval <= Depth(t.tip.hash)
                 && NextWork(t, k, inherited) == Some(OwnRetarget(t.net, t.tip.hash))
            else NextWork(t, k, inherited) == None
  {
    var first: int := t.tip.height + 1 - t.net.interval;
    ExactIsTheWalk(t, t.tip.height);
    ActiveIsAtHeight(t, t.tip.hash);
    assert Placed(t, t.tip.hash);
    IntervalDivides(t.net, t.tip.height + 1);
    ExactIsTheWalk(t, first);
    if t.origin.height < first {
      var a := AtHeight(t, first);
      assert Placed(t, a);
      AncestorsAreOrdered(t.tip.hash, a, Back(t.tip.hash, t.net.interval - 1));
      if t.origin.height + 1 == first {
        RootByDepth(t, a);
        assert RootIndexed(t) <==> first in t.index by {
          assert forall x :: IsRoot(t, x) <==> x == a;
        }
      }
    }
  }

  lemma IntervalDivides(net: Network, k: nat)
    requires IsAdjustment(net, k) && 0 < k
    ensures net.interval <= k
  {
  }

  /** `x` has its parent's bits off adjustment heights, and the retarget of its own ancestors
      at them. */
  ghost predicate FollowsRule(net: Network, x: Hash, k: nat)
    requires k < Depth(x)
  {
    if k == 0 then true
    else if IsAdjustment(net, k) then
      net.interval <= k && x.header.bits == OwnRetarget(net, x.header.prev)
    else
      assert 0 < Depth(x.header.prev);
      x.header.bits == x.header.prev.header.bits
  }

  /** The state of a run from genesis on a retargeting network. */
  ghost predicate Audited(t: Tree) {
    && Valid(t) && Exact(t) && RootIndexed(t) && t.origin.height == -1 && t.headers != map[]
    && t.tip.hash in t.headers && t.tip.nextWork == Some(t.headers[t.tip.hash].header.bits)
    && AllFollowRule(t)
  }

  ghost predicate KeepsRule(net: Network, x: Hash, k: nat) {
    k < Depth(x) && FollowsRule(net, x, k)
  }

  ghost predicate AllFollowRule(t: Tree) {
    forall x | Active(t, x) :: KeepsRule(t.net, x, t.headers[x].height)
  }

  lemma GenesisAudited(net: Network)
    ensures Audited(FromGenesis(net))
  {
    var t := FromGenesis(net);
    var g := net.genesis.BlockHash();
    StartsValid(net, t.tip, 0, net.genesis);
    assert g in t.headers;
  }

  lemma SingleStepOfInterval(t: Tree)
    requires Audited(t) && Retargets(t.net) && IsAdjustment(t.net, t.tip.height + 1)
    ensures t.net.interval <= t.tip.height + 1 && t.net.interval <= Depth(t.tip.hash)
    ensures NextWork(t, t.tip.height + 1, t.tip.nextWork) == Some(OwnRetarget(t.net, t.tip.hash))
  {
    IntervalDivides(t.net, t.tip.height + 1);
    assert Placed(t, t.tip.hash);
    if 0 < t.tip.height {
      AdjustmentLookup(t, t.tip.nextWork);
    } else {
      RootByDepth(t, t.tip.hash);
      assert t.net.interval == 1;
      assert 0 in t.index;
      ExactIsTheWalk(t, 0);
      ActiveIsAtHeight(t, t.tip.hash);
    }
  }

  lemma OnlyRoot(t: Tree, t': Tree, x: Hash)
    requires Valid(t) && Valid(t') && OnlyAdds(t, t') && IsRoot(t', x)
    ensures IsRoot(t, x)
  {
    if t.headers != map[] {
      assert Placed(t, t.tip.hash);
      var r := AtHeight(t, t.origin.height + 1);
      RootByDepth(t, r);
      assert IsRoot(t', r);
    }
  }

  lemma ForkKeepsAudited(t: Tree, h: Header)
    requires Audited(t) && !Reorganizes(t, h) && h.prev != t.tip.hash
    ensures Audited(Accept(t, h).0)
  {
    var t' := Accept(t, h).0;
    AcceptValid(t, h);
    AcceptKeepsExact(t, h);
    NotReorganizing(t, h);
    forall x | Active(t', x) ensures Active(t, x) {
      assert Placed(t', x);
      AncestorsAreStored(t, t.tip.hash, x);
    }
    forall x | IsRoot(t', x) ensures t'.headers[x].height in t'.index {
      OnlyRoot(t, t', x);
    }
  }

  /** The tip accepts exactly the children that keep to the rule. */
  lemma TipDemand(t: Tree, h: Header)
    requires Audited(t) && Retargets(t.net) && h.prev == t.tip.hash
    ensures KeepsRule(t.net, h.BlockHash(), t.tip.height + 1) <==> Accept(t, h).1.Accepted?
    ensures Accept(t, h) == ExtendTip(t, h)
    ensures Accept(t, h).1.Accepted? ==> Accept(t, h).0.tip.nextWork == Some(h.bits)
  {
    assert Accept(t, h) == ExtendTip(t, h);
    assert Placed(t, t.tip.hash);
    assert t.tip.height + 1 < Depth(h.BlockHash());
    if IsAdjustment(t.net, t.tip.height + 1) {
      SingleStepOfInterval(t);
    }
  }

  lemma ExtensionActive(t: Tree, h: Header, x: Hash)
    requires Valid(t) && h.prev == t.tip.hash && Active(ExtendTip(t, h).0, x)
    ensures var t' := ExtendTip(t, h).0;
            x == t'.tip.hash || (Active(t, x) && t'.headers[x] == t.headers[x])
  {
    TipHasNoStoredChild(t, h);
  }

  lemma ExtensionKeepsRule(t: Tree, h: Header)
    requires Valid(t) && AllFollowRule(t) && h.prev == t.tip.hash
    requires KeepsRule(t.net, h.BlockHash(), t.tip.height + 1)
    requires ExtendTip(t, h).1.Accepted?
    ensures AllFollowRule(ExtendTip(t, h).0)
  {
    var t' := ExtendTip(t, h).0;
    forall x | Active(t', x) ensures KeepsRule(t'.net, x, t'.headers[x].height) {
      ExtensionActive(t, h, x);
    }
  }

  lemma ExtensionKeepsRootIndexed(t: Tree, h: Header)
    requires Valid(t) && RootIndexed(t) && h.prev == t.tip.hash
    ensures RootIndexed(ExtendTip(t, h).0)
  {
    var t' := ExtendTip(t, h).0;
    forall x | IsRoot(t', x) ensures t'.headers[x].height in t'.index {
      if x in t.headers && x != h.BlockHash() {
        assert IsRoot(t, x);
      }
    }
  }

  lemma ExtensionKeepsAudited(t: Tree, h: Header)
    requires Audited(t) && Retargets(t.net) && h.prev == t.tip.hash && Accept(t, h).1.Accepted?
    ensures Audited(Accept(t, h).0)
  {
    AcceptValid(t, h);
    AcceptKeepsExact(t, h);
    TipDemand(t, h);
    ExtensionKeepsRule(t, h);
    ExtensionKeepsRootIndexed(t, h);
  }

  /** In every step of a run from genesis that is no reorganization, each active header keeps
      to the difficulty rule of its own ancestors, and the tip only accepts what keeps to it. */
  lemma AcceptKeepsAudited(t: Tree, h: Header)
    requires Audited(t) && Retargets(t.net) && !Reorganizes(t, h)
    ensures Audited(Accept(t, h).0)
    ensures h.prev == t.tip.hash ==>
              (Accept(t, h).1.Accepted? <==> KeepsRule(t.net, h.BlockHash(), t.tip.height + 1))
  {
    if h.prev != t.tip.hash {
      ForkKeepsAudited(t, h);
    } else {
      TipDemand(t, h);
      if Accept(t, h).1.Accepted? {
        ExtensionKeepsAudited(t, h);
      }
    }
  }

  /** After a restart from a stored header the root is not indexed, so the adjustment one
      interval above it demands nothing: headers with any bits pass. */
  lemma RestartSkipsAdjustment(t: Tree, h: Header)
    requires Valid(t) && Exact(t) && t.headers != map[] && Retargets(t.net) && !RootIndexed(t)
    requires t.origin.height + 1 < t.tip.height && t.net.interval == t.tip.height - t.origin.height
    requires IsAdjustment(t.net, t.tip.height + 1)
    requires h.prev == t.tip.hash
    ensures Accept(t, h).1.Accepted? && Accept(t, h).0.tip.nextWork == None
  {
    AdjustmentLookup(t, t.tip.nextWork);
  }
}
