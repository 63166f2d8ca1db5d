/** What a tree answers to a header, told from the fields of the tree and the two flags of the
    network. */
module GraphAnswers {
  import opened Hashes
  import opened Graph
  import opened GraphInvariant
  import opened GraphIndex
  import opened GraphWork
  import opened GraphRetarget
  import opened GraphRuns
  import opened GraphAudit

  // ---------- Known and unknown headers ----------

  /** A header is a duplicate exactly if it is stored, floats exactly if neither it nor its parent
      is known, and is accepted, at the height above the tip, only on the tip. */
  lemma AnswerIff(t: Tree, h: Header)
    requires Valid(t)
    ensures var (t', answer) := Accept(t, h);
            && (answer == Duplicate <==> h.BlockHash() in t.headers)
            && (answer == Rejected(UnknownPrevHash(h.prev))
                <==> h.BlockHash() !in t.headers && h.prev !in t.headers && h.prev != t.tip.hash)
            && (answer.Rejected? && answer.reason.UnknownPrevHash? ==> answer.reason.prev == h.prev)
            && (answer.Accepted? ==> h.prev == t.tip.hash && answer.connectedAt == Indexed(t.tip.height + 1, h))
            && (answer == Duplicate || answer == Rejected(UnknownPrevHash(h.prev)) ==> t' == t)
  {
    var i := Position(t.forks, h.prev);
    if h.prev == t.tip.hash {
      TipHasNoStoredChild(t, h);
    } else if i < |t.forks| {
      assert GoodCandidate(t, t.forks[i]);
    }
  }

  // ---------- The bits that are asked for ----------

  /** With other bits than asked for, `h` is refused and only a candidate may be lost. Otherwise it
      is stored above `parent`, and its tip or candidate hands on what was asked. */
  ghost predicate TakenWith(t: Tree, h: Header, parent: nat, asked: Option<Bits>) {
    var (t', answer) := Accept(t, h);
    if asked == None || asked == Some(h.bits) then
      && !answer.Rejected? && h.BlockHash() in t'.headers && t'.headers[h.BlockHash()].height == parent + 1
      && Tip(h.BlockHash(), parent + 1, asked) in Tips(t')
    else
      && answer == Rejected(InvalidPow(asked.value, h.bits))
      && t'.headers == t.headers && t'.index == t.index && t'.tip == t.tip && Tips(t') <= Tips(t)
  }

  /** A child of the tip is asked for what the tip hands down if the network has a test network's
      flag or the height is off the interval, and otherwise for the retarget. */
  lemma TipAsks(t: Tree, h: Header)
    requires Valid(t) && h.prev == t.tip.hash
    ensures var net, k := t.net, t.tip.height + 1;
            TakenWith(t, h, t.tip.height,
              if net.noPowRetargeting || net.allowMinDifficulty || k % net.interval != 0 then t.tip.nextWork
              else ComputeNextWork(t, k))
    ensures Accept(t, h).1.Accepted? <==> !Accept(t, h).1.Rejected?
  {
    TipHasNoStoredChild(t, h);
    assert Accept(t, h) == ExtendTip(t, h);
  }

  /** So is a child of a candidate, with what the candidate hands down; it is adopted exactly if it
      has more work than the tip. */
  lemma CandidateAsks(t: Tree, h: Header, i: nat)
    requires Valid(t) && i < |t.forks| && t.forks[i].hash == h.prev && h.BlockHash() !in t.headers
    ensures h.prev in t.headers
    ensures var net, k := t.net, t.headers[h.prev].height + 1;
            TakenWith(t, h, t.headers[h.prev].height,
              if net.noPowRetargeting || net.allowMinDifficulty || k % net.interval != 0 then t.forks[i].nextWork
              else ComputeNextWork(t, k))
    ensures !Accept(t, h).1.Rejected? ==>
              (Accept(t, h).1.Reorganization? <==> TipWork(t) < t.headers[h.prev].accWork + h.bits.work)
              && (!Accept(t, h).1.Reorganization?
                  ==> Accept(t, h).1 == ExtendedFork(Indexed(t.headers[h.prev].height + 1, h)))
  {
    assert GoodCandidate(t, t.forks[i]);
    OnlyPosition(t, i);
    assert Forks(t, h) && ForkDemand(t, h) == NextWork(t, t.headers[h.prev].height + 1, t.forks[i].nextWork);
    ForkStep(t, h);
    assert Accept(t, h) == ExtendCandidate(t, h, i);
  }

  lemma OnlyPosition(t: Tree, i: nat)
    requires Valid(t) && i < |t.forks|
    ensures Position(t.forks, t.forks[i].hash) == i
  {
  }

  /** And so is a header that starts a fork, with the bits of its parent. */
  lemma NewForkAsks(t: Tree, h: Header)
    requires Valid(t) && h.prev in t.headers && h.prev != t.tip.hash && !IsCandidate(t, h.prev)
    requires h.BlockHash() !in t.headers
    ensures var net, k := t.net, t.headers[h.prev].height + 1;
            TakenWith(t, h, t.headers[h.prev].height,
              if net.noPowRetargeting || net.allowMinDifficulty || k % net.interval != 0
              then Some(t.headers[h.prev].header.bits) else ComputeNextWork(t, k))
    ensures !Accept(t, h).1.Rejected? ==> Accept(t, h).1 == ExtendedFork(Indexed(t.headers[h.prev].height + 1, h))
  {
    PositionFindsCandidate(t, h.prev);
    assert Forks(t, h);
    ForkStep(t, h);
    assert Accept(t, h) == StartFork(t, h);
  }

  // ---------- Whole runs ----------

  /** With either flag, every header of a run from genesis or a stored header has the bits of the
      first. */
  lemma {:induction false} BitsStay(t: Tree, hs: seq<Header>, bits: Bits)
    requires Valid(t) && Uniform(t, bits)
    ensures Uniform(AcceptAll(t, hs), bits)
    decreases |hs|
  {
    if hs != [] {
      AcceptKeepsUniform(t, hs[0], bits);
      AcceptValid(t, hs[0]);
      BitsStay(Accept(t, hs[0]).0, hs[1..], bits);
    }
  }

  lemma FlaggedNetworkKeepsBits(net: Network, height: nat, header: Header, hs: seq<Header>)
    requires net.noPowRetargeting || net.allowMinDifficulty
    ensures var (t, t') := (AcceptAll(FromGenesis(net), hs), AcceptAll(FromHeader(net, height, header), hs));
            && (forall x | x in t.headers :: t.headers[x].header.bits == net.genesis.bits)
            && (forall x | x in t'.headers :: t'.headers[x].header.bits == header.bits)
  {
    StartsValid(net, Tip(header.prev, 0, None), height, header);
    StartsUniform(net, height, header);
    BitsStay(FromGenesis(net), hs, net.genesis.bits);
    BitsStay(FromHeader(net, height, header), hs, header.bits);
  }

  /** A stored header has its parent's bits off multiples of the interval, and at them the retarget
      of its own ancestors one interval and one block back. */
  ghost predicate HasRuleBits(t: Tree, x: Hash) {
    x in t.headers && t.headers[x].header.prev in t.headers
    && var (k, bits, p) := (t.headers[x].height, t.headers[x].header.bits, t.headers[x].header.prev);
       if k % t.net.interval != 0 then bits == t.headers[p].header.bits
       else
         && t.net.interval <= Depth(p) && Back(p, t.net.interval - 1) in t.headers
         && var first := t.headers[Back(p, t.net.interval - 1)];
            first.height == k - t.net.interval && bits == t.net.retarget(first.header, t.headers[p].header)
  }

  lemma BackIsStored(t: Tree, x: Hash, n: nat)
    requires Valid(t) && x in t.headers && n <= Depth(x) && t.origin.height < t.headers[x].height - n
    ensures Back(x, n) in t.headers && t.headers[Back(x, n)].height == t.headers[x].height - n
    ensures Back(x, n).Of? && t.headers[Back(x, n)].header == Back(x, n).header
  {
    assert Placed(t, x);
    BackDescends(x, n);
    AncestorsAreStored(t, x, Back(x, n));
    assert Placed(t, Back(x, n));
  }

  lemma ParentIsStored(t: Tree, x: Hash)
    requires Valid(t) && x in t.headers && t.origin.height + 1 < t.headers[x].height
    ensures x.Of? && t.headers[x].header == x.header && x.header.prev in t.headers
    ensures x.header.prev.Of? && t.headers[x.header.prev].header == x.header.prev.header
    ensures t.headers[x.header.prev].height == t.headers[x].height - 1
  {
    assert Placed(t, x);
    RootByDepth(t, x);
    assert Placed(t, x.header.prev);
  }

  lemma RuleIsRead(t: Tree, x: Hash)
    requires Valid(t) && t.origin.height == -1 && x in t.headers && 0 < t.headers[x].height
    requires KeepsRule(t.net, x, t.headers[x].height)
    ensures HasRuleBits(t, x)
  {
    ParentIsStored(t, x);
    var p := x.header.prev;
    if t.headers[x].height % t.net.interval == 0 {
      BackIsStored(t, p, t.net.interval - 1);
    }
  }

  /** With neither, so does each active header above genesis in every run from genesis without a
      reorganization. */
  lemma UnflaggedNetworkRetargets(net: Network, hs: seq<Header>, x: Hash)
    requires !net.noPowRetargeting && !net.allowMinDifficulty
    requires EveryStep(NoReorganization, FromGenesis(net), hs)
    ensures var t := AcceptAll(FromGenesis(net), hs);
            t.net == net && (Active(t, x) && 0 < t.headers[x].height ==> HasRuleBits(t, x))
  {
    RuleFromGenesis(net, hs);
    StartsValid(net, Tip(net.genesis.prev, 0, None), 0, net.genesis);
    ReachableValid(FromGenesis(net), hs);
    var t := AcceptAll(FromGenesis(net), hs);
    if Active(t, x) && 0 < t.headers[x].height {
      assert KeepsRule(t.net, x, t.headers[x].height);
      RuleIsRead(t, x);
    }
  }
}
