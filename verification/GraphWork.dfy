/** The tip carries the most work that the tree knows of. */
module GraphWork {
  import opened Hashes
  import opened Graph
  import opened GraphInvariant
  import opened GraphIndex

  ghost function TipWork(t: Tree): nat { WorkOf(t, t.tip.hash) }

  /** The work of the active chain never falls, and rises with every change of the tip. */
  lemma TipWorkRises(t: Tree, h: Header)
    requires Valid(t)
    ensures var (t', changes) := Accept(t, h);
            && TipWork(t) <= TipWork(t')
            && (TipWork(t) < TipWork(t') <==> changes.Accepted? || changes.Reorganization?)
            && (changes.Accepted? || changes.Reorganization? <==> t'.tip.hash != t.tip.hash)
  {
    NotOwnParent(h);
    if h.prev == t.tip.hash {
      TipHasNoStoredChild(t, h);
    } else if Reorganizes(t, h) {
      ReorganizationShape(t, h);
      ReorganizationBranch(t, h);
    } else {
      NotReorganizing(t, h);
    }
  }

  /** `h` is a child of the tip with the bits that the tip demands. */
  ghost predicate ExtendsActive(t: Tree, h: Header) {
    h.prev == t.tip.hash && !BadBits(NextWork(t, t.tip.height + 1, t.tip.nextWork), h)
  }

  /** `h` is new, extends a candidate fork with the bits that the fork demands, and has more
      work behind it than the tip. */
  ghost predicate OutworksTip(t: Tree, h: Header) {
    var i := Position(t.forks, h.prev);
    && h.prev != t.tip.hash && h.BlockHash() !in t.headers && i < |t.forks| && h.prev in t.headers
    && !BadBits(NextWork(t, t.headers[h.prev].height + 1, t.forks[i].nextWork), h)
    && TipWork(t) < t.headers[h.prev].accWork + h.bits.work
  }

  ghost predicate MovesTip(t: Tree, h: Header) {
    ExtendsActive(t, h) || OutworksTip(t, h)
  }

  /** The two ways in which a header moves the tip can be told beforehand. */
  lemma MovesTipIff(t: Tree, h: Header)
    requires Valid(t)
    ensures Accept(t, h).1.Accepted? <==> ExtendsActive(t, h)
    ensures Reorganizes(t, h) <==> OutworksTip(t, h)
    ensures Accept(t, h).0.tip.hash != t.tip.hash <==> MovesTip(t, h)
  {
    TipWorkRises(t, h);
    if OutworksTip(t, h) {
      assert h.BlockHash() != t.tip.hash by {
        if t.headers != map[] { assert t.tip.hash in t.headers; }
      }
      assert Accept(t, h) == ExtendCandidate(t, h, Position(t.forks, h.prev));
    } else if Reorganizes(t, h) {
      ReorganizationBranch(t, h);
      ReorganizationShape(t, h);
    }
  }

  ghost predicate BestTip(t: Tree) {
    forall x | x in t.headers :: t.headers[x].accWork <= TipWork(t)
  }

  /** `h` starts a fork, is accepted, and has more work behind it than the tip. */
  ghost predicate OutworksUnnoticed(t: Tree, h: Header) {
    && h.prev != t.tip.hash && h.BlockHash() !in t.headers && !IsCandidate(t, h.prev)
    && h.prev in t.headers
    && !BadBits(NextWork(t, t.headers[h.prev].height + 1, Some(t.headers[h.prev].header.bits)), h)
    && TipWork(t) < t.headers[h.prev].accWork + h.bits.work
  }

  /** On any network, the tip remains the best header exactly when no fork is started that
      already outworks it: starting a fork is the one branch that never compares work. */
  lemma TipStaysBestIff(t: Tree, h: Header)
    requires Valid(t) && BestTip(t)
    ensures BestTip(Accept(t, h).0) <==> !OutworksUnnoticed(t, h)
  {
    var (t', changes) := Accept(t, h);
    PositionFindsCandidate(t, h.prev);
    TipWorkRises(t, h);
    if h.prev == t.tip.hash {
      TipHasNoStoredChild(t, h);
    } else if Reorganizes(t, h) {
      ReorganizationShape(t, h);
    } else {
      NotReorganizing(t, h);
      if OutworksUnnoticed(t, h) {
        assert h.BlockHash() in t'.headers;
      }
    }
  }

  // ---------- Networks whose bits never change ----------

  /** Without retargeting, a tree started at a header only ever holds one kind of bits. */
  ghost predicate Uniform(t: Tree, bits: Bits) {
    && !Retargets(t.net) && t.tip.nextWork == Some(bits) && t.headers != map[]
    && (forall f | f in t.forks :: f.nextWork == Some(bits))
    && (forall x | x in t.headers :: t.headers[x].header.bits == bits)
  }

  lemma StartsUniform(net: Network, height: nat, header: Header)
    requires !Retargets(net)
    ensures Uniform(FromGenesis(net), net.genesis.bits) && BestTip(FromGenesis(net))
    ensures Uniform(FromHeader(net, height, header), header.bits) && BestTip(FromHeader(net, height, header))
  {
    assert net.genesis.BlockHash() in FromGenesis(net).headers;
    assert header.BlockHash() in FromHeader(net, height, header).headers;
  }

  lemma AcceptKeepsUniform(t: Tree, h: Header, bits: Bits)
    requires Valid(t) && Uniform(t, bits)
    ensures Uniform(Accept(t, h).0, bits)
  {
    var t' := Accept(t, h).0;
    var i := Position(t.forks, h.prev);
    if h.prev != t.tip.hash && h.BlockHash() !in t.headers && i < |t.forks| {
      assert t.forks[i] in t.forks;
      forall f ensures f in SwapRemove(t.forks, i) ==> f in t.forks {
        SwapRemoveMembers(t.forks, i, f);
      }
      if Reorganizes(t, h) {
        ReorganizationShape(t, h);
        ReorganizationBranch(t, h);
      }
    }
  }

  /** `n` times the work `w`. */
  function Times(w: Pos, n: nat): nat {
    if n == 0 then 0 else w + Times(w, n - 1)
  }

  lemma {:induction false} TimesOrdered(w: Pos, a: nat, b: nat)
    requires a < b
    ensures Times(w, a) + w <= Times(w, b)
  {
    if a < b - 1 {
      TimesOrdered(w, a, b - 1);
    }
  }

  lemma {:induction false} UniformWorkIsHeight(t: Tree, bits: Bits, x: Hash)
    requires AllPlaced(t) && x in t.headers
    requires forall y | y in t.headers :: t.headers[y].header.bits == bits
    ensures t.origin.height < t.headers[x].height
    ensures t.headers[x].accWork == Times(bits.work, t.headers[x].height - t.origin.height)
    decreases x
  {
    assert Placed(t, x);
    RootByDepth(t, x);
    if !IsRoot(t, x) {
      UniformWorkIsHeight(t, bits, x.header.prev);
      assert Placed(t, x.header.prev);
    } else {
      OriginNotStored(t);
    }
  }

  lemma ReorganizationOutworks(t: Tree, h: Header)
    requires Valid(t) && Reorganizes(t, h)
    ensures h.prev in t.headers && t.tip.hash in t.headers && h.prev != t.tip.hash
    ensures t.headers[t.tip.hash].accWork < t.headers[h.prev].accWork + h.bits.work
    ensures var i := Position(t.forks, h.prev);
            i < |t.forks| && !BadBits(NextWork(t, t.headers[h.prev].height + 1, t.forks[i].nextWork), h)
  {
    ReorganizationBranch(t, h);
    assert GoodCandidate(t, t.forks[Position(t.forks, h.prev)]);
  }

  lemma WithinOneOfWork(t: Tree, bits: Bits, x: Hash, y: Hash)
    requires AllPlaced(t) && x in t.headers && y in t.headers
    requires forall z | z in t.headers :: t.headers[z].header.bits == bits
    requires t.headers[x].accWork <= t.headers[y].accWork < t.headers[x].accWork + bits.work
    ensures t.headers[x].height == t.headers[y].height
  {
    UniformWorkIsHeight(t, bits, x);
    UniformWorkIsHeight(t, bits, y);
    var a, b := t.headers[x].height - t.origin.height, t.headers[y].height - t.origin.height;
    if a < b {
      TimesOrdered(bits.work, a, b);
    } else if b < a {
      TimesOrdered(bits.work, b, a);
    }
  }

  lemma UniformReorganizationByOne(t: Tree, h: Header, bits: Bits)
    requires Valid(t) && Uniform(t, bits) && BestTip(t) && Reorganizes(t, h)
    ensures h.prev in t.headers && t.headers[h.prev].height == t.tip.height
    ensures Accept(t, h).0.tip.height == t.tip.height + 1
  {
    ReorganizationShape(t, h);
    ReorganizationOutworks(t, h);
    assert h.bits == bits by {
      assert t.forks[Position(t.forks, h.prev)] in t.forks;
    }
    WithinOneOfWork(t, bits, h.prev, t.tip.hash);
  }

  /** Where every leaf is tracked, a header that is neither tip nor candidate has a child. */
  lemma UntrackedHasChild(t: Tree, x: Hash) returns (child: Hash)
    requires Valid(t) && LeavesAreCandidates(t)
    requires x in t.headers && x != t.tip.hash && !IsCandidate(t, x)
    ensures child in t.headers && t.headers[child].header.prev == x
    ensures t.headers[child].accWork == t.headers[x].accWork + t.headers[child].header.bits.work
  {
    assert !Childless(t, x);
    child :| child in t.headers && t.headers[child].header.prev == x;
    assert Placed(t, child);
  }

  /** With uniform bits, as long as every leaf is tracked, no stored header outworks the tip
      and a reorganization raises the height by exactly one. */
  lemma UniformTipStaysBest(t: Tree, h: Header, bits: Bits)
    requires Valid(t) && Uniform(t, bits) && LeavesAreCandidates(t) && BestTip(t)
    ensures BestTip(Accept(t, h).0)
    ensures Reorganizes(t, h) ==> Accept(t, h).0.tip.height == t.tip.height + 1
  {
    TipStaysBestIff(t, h);
    if h.prev in t.headers && h.prev != t.tip.hash && !IsCandidate(t, h.prev) {
      var child := UntrackedHasChild(t, h.prev);
    }
    if Reorganizes(t, h) {
      UniformReorganizationByOne(t, h, bits);
    }
  }

  /** A tree on a network without retargeting, none of whose candidates was dropped. */
  ghost predicate UniformBest(t: Tree, bits: Bits) {
    Valid(t) && Uniform(t, bits) && LeavesAreCandidates(t) && BestTip(t)
  }

  lemma UniformStep(t: Tree, h: Header, bits: Bits)
    requires UniformBest(t, bits) && !DropsCandidate(t, h)
    ensures TallEnough(t, h) && UniformBest(Accept(t, h).0, bits)
  {
    AcceptValid(t, h);
    AcceptKeepsUniform(t, h, bits);
    UniformTipStaysBest(t, h, bits);
    if Reorganizes(t, h) {
      ReorganizationShape(t, h);
    }
  }
}
