/** Every tree that the program can reach is well placed, and its leaves are its fork tips. */
module GraphInvariant {
  import opened Hashes
  import opened Graph

  lemma StartsValid(net: Network, tip: Tip, height: nat, header: Header)
    ensures Valid(FromTip(net, tip)) && LeavesAreCandidates(FromTip(net, tip))
    ensures Valid(FromGenesis(net)) && LeavesAreCandidates(FromGenesis(net))
    ensures Valid(FromHeader(net, height, header)) && LeavesAreCandidates(FromHeader(net, height, header))
  {
    NotOwnParent(net.genesis);
    NotOwnParent(header);
    assert net.genesis.BlockHash() in FromGenesis(net).headers;
    assert header.BlockHash() in FromHeader(net, height, header).headers;
  }

  lemma NotOwnParent(h: Header)
    ensures h.prev != h.BlockHash()
  {
    assert Depth(h.prev) < Depth(h.BlockHash());
  }

  // ---------- Adding a leaf ----------

  /** The headers of `t` with `h` added as a fresh node above its parent. */
  ghost function WithLeaf(t: Tree, h: Header, height: nat): Tree {
    t.(headers := t.headers[h.BlockHash() := FreshNode(height, h, WorkOf(t, h.prev) + h.bits.work)])
  }

  /** `h` is new and its parent is either stored or the origin of an empty tree. */
  ghost predicate Attaches(t: Tree, h: Header) {
    && h.BlockHash() !in t.headers
    && (h.prev in t.headers || (t.headers == map[] && h.prev == t.origin.hash))
  }

  ghost function ParentHeight(t: Tree, h: Header): int {
    if h.prev in t.headers then t.headers[h.prev].height else t.origin.height
  }

  lemma LeafIsNoParent(t: Tree, h: Header)
    requires AllPlaced(t) && Attaches(t, h)
    ensures h.BlockHash() != t.origin.hash
    ensures Childless(t, h.BlockHash())
    ensures h.prev != h.BlockHash()
  {
    NotOwnParent(h);
    if h.prev in t.headers {
      assert Placed(t, h.prev);
    }
    forall y | y in t.headers ensures t.headers[y].header.prev != h.BlockHash() {
      assert Placed(t, y);
    }
  }

  lemma LeafPlaced(t: Tree, h: Header, height: nat)
    requires AllPlaced(t) && OneRoot(t) && Attaches(t, h)
    requires height == ParentHeight(t, h) + 1
    ensures AllPlaced(WithLeaf(t, h, height)) && OneRoot(WithLeaf(t, h, height))
  {
    var t' := WithLeaf(t, h, height);
    LeafIsNoParent(t, h);
    forall x | x in t'.headers ensures Placed(t', x) {
      if x != h.BlockHash() {
        assert Placed(t, x);
        assert t.headers[x].header.prev != h.BlockHash();
      } else if h.prev in t.headers {
        assert Placed(t, h.prev);
      }
    }
    forall x, y | IsRoot(t', x) && IsRoot(t', y) ensures x == y {
      if h.prev in t.headers {
        assert Placed(t, h.prev);
        assert IsRoot(t, x) && IsRoot(t, y);
      }
    }
  }

  /** Adding a leaf makes its parent a parent, and leaves every other header as it was. */
  lemma LeafChildren(t: Tree, h: Header, height: nat, x: Hash)
    requires AllPlaced(t) && Attaches(t, h)
    ensures Childless(WithLeaf(t, h, height), x) <==> Childless(t, x) && x != h.prev
    ensures Childless(WithLeaf(t, h, height), h.BlockHash())
  {
    var t' := WithLeaf(t, h, height);
    LeafIsNoParent(t, h);
    assert t'.headers[h.BlockHash()].header.prev == h.prev;
    if Childless(t', x) {
      forall y | y in t.headers ensures t.headers[y].header.prev != x {
        assert t'.headers[y] == t.headers[y];
      }
    }
  }

  // ---------- The list of candidates ----------

  lemma SwapRemoveMembers(forks: seq<Tip>, i: nat, f: Tip)
    requires i < |forks|
    requires forall j, k | 0 <= j < k < |forks| :: forks[j].hash != forks[k].hash
    ensures f in SwapRemove(forks, i) <==> f in forks && f.hash != forks[i].hash
  {
    var after, last := SwapRemove(forks, i), |forks| - 1;
    if f in forks && f.hash != forks[i].hash {
      var j :| 0 <= j < |forks| && forks[j] == f;
      assert after[if j == last then i else j] == f;
    }
    if f in after {
      var j :| 0 <= j < |after| && after[j] == f;
      assert f == forks[if j == i then last else j];
    }
  }

  lemma SwapRemoveDistinct(forks: seq<Tip>, i: nat)
    requires i < |forks|
    requires forall j, k | 0 <= j < k < |forks| :: forks[j].hash != forks[k].hash
    ensures var after := SwapRemove(forks, i);
            forall j, k | 0 <= j < k < |after| :: after[j].hash != after[k].hash
  {
  }

  // ---------- Switching only touches the index ----------

  lemma {:induction false} SwitchKeepsPlaced(hs: map<Hash, BlockNode>, index: map<nat, Hash>, x: Hash)
    requires IndexOver(hs, index)
    ensures IndexOver(hs, Switch(hs, index, x).index)
    decreases x
  {
    if x.Of? && x in hs && !(hs[x].height in index && index[hs[x].height] == x) {
      var next := index[hs[x].height := x];
      SwitchKeepsPlaced(hs, next, x.header.prev);
      assert Switch(hs, index, x).index == Switch(hs, next, x.header.prev).index;
    } else {
      assert Switch(hs, index, x).index == index;
    }
  }

  // ---------- Accepting a header keeps the tree valid ----------

  lemma TipHasNoStoredChild(t: Tree, h: Header)
    requires Valid(t) && h.prev == t.tip.hash
    ensures Attaches(t, h) && ParentHeight(t, h) == t.tip.height
  {
    assert forall x | x in t.headers :: Placed(t, x) && t.headers[x].header.prev != t.tip.hash;
  }

  lemma ExtendTipValid(t: Tree, h: Header)
    requires Valid(t) && h.prev == t.tip.hash
    ensures Valid(ExtendTip(t, h).0)
    ensures LeavesAreCandidates(t) ==> LeavesAreCandidates(ExtendTip(t, h).0)
  {
    var t' := ExtendTip(t, h).0;
    if t' != t {
      TipHasNoStoredChild(t, h);
      var height := t.tip.height + 1;
      var leaf := WithLeaf(t, h, height);
      LeafPlaced(t, h, height);
      assert t'.headers == leaf.headers;
      SameHeaders(leaf, t');
      LeafIsNoParent(t, h);
      forall x ensures Childless(t', x) <==> Childless(t, x) && x != h.prev {
        LeafChildren(t, h, height, x);
      }
      LeafChildren(t, h, height, h.BlockHash());
      assert forall i | 0 <= i < |t'.forks| :: GoodCandidate(t, t.forks[i]) && GoodCandidate(t', t'.forks[i]);
      if LeavesAreCandidates(t) {
        CandidatesCover(t, t', h);
      }
    }
  }

  /** A tree with the same stored headers and origin is placed the same way. */
  lemma SameHeaders(t: Tree, t': Tree)
    requires AllPlaced(t) && OneRoot(t)
    requires t.headers == t'.headers && t.origin == t'.origin
    ensures AllPlaced(t') && OneRoot(t')
  {
    forall x | x in t'.headers ensures Placed(t', x) {
      assert Placed(t, x);
    }
    forall x, y | IsRoot(t', x) && IsRoot(t', y) ensures x == y {
      assert IsRoot(t, x) && IsRoot(t, y);
    }
  }

  /** After adding `h`, every leaf is the tip or a candidate, provided that the only old
      candidate given up is the parent of `h` and the new leaf and the old tip are covered. */
  lemma CandidatesCover(t: Tree, t': Tree, h: Header)
    requires AllPlaced(t) && LeavesAreCandidates(t)
    requires t'.headers.Keys == t.headers.Keys + {h.BlockHash()}
    requires forall x :: Childless(t', x) ==> Childless(t, x) && x != h.prev
    requires forall f | f in t.forks && f.hash != h.prev :: f in t'.forks
    requires h.BlockHash() == t'.tip.hash || IsCandidate(t', h.BlockHash())
    requires t.tip.hash == h.prev || t.tip.hash == t'.tip.hash || IsCandidate(t', t.tip.hash)
    ensures LeavesAreCandidates(t')
  {
    forall x | x in t'.headers && Childless(t', x)
      ensures x == t'.tip.hash || IsCandidate(t', x)
    {
      if x != h.BlockHash() && x != t.tip.hash {
        assert IsCandidate(t, x);
        var i :| 0 <= i < |t.forks| && t.forks[i].hash == x;
        assert t.forks[i] in t'.forks;
      }
    }
  }

  lemma StartForkValid(t: Tree, h: Header)
    requires Valid(t) && h.prev in t.headers && h.prev != t.tip.hash
    requires h.BlockHash() !in t.headers && !IsCandidate(t, h.prev)
    ensures Valid(StartFork(t, h).0)
    ensures LeavesAreCandidates(t) ==> LeavesAreCandidates(StartFork(t, h).0)
  {
    var t' := StartFork(t, h).0;
    if t' != t {
      var height := t.headers[h.prev].height + 1;
      AddCandidateValid(t, h, height, t.forks, t', t'.forks[|t.forks|]);
    }
  }

  /** Adding `h` as one more candidate above a header that is neither tip nor candidate. */
  lemma AddCandidateValid(t: Tree, h: Header, height: nat, kept: seq<Tip>, t': Tree, tip: Tip)
    requires Valid(t) && Attaches(t, h) && height == ParentHeight(t, h) + 1
    requires h.prev != t.tip.hash && h.prev in t.headers
    requires forall f :: f in kept <==> f in t.forks && f.hash != h.prev
    requires forall i, j | 0 <= i < j < |kept| :: kept[i].hash != kept[j].hash
    requires tip.hash == h.BlockHash() && tip.height == height
    requires t' == WithLeaf(t, h, height).(forks := kept + [tip])
    ensures Valid(t')
    ensures LeavesAreCandidates(t) ==> LeavesAreCandidates(t')
  {
    var leaf := WithLeaf(t, h, height);
    LeafPlaced(t, h, height);
    SameHeaders(leaf, t');
    LeafIsNoParent(t, h);
    forall x ensures Childless(t', x) <==> Childless(t, x) && x != h.prev {
      LeafChildren(t, h, height, x);
    }
    LeafChildren(t, h, height, h.BlockHash());
    assert Childless(t', h.BlockHash());
    forall i | 0 <= i < |t'.forks| ensures GoodCandidate(t', t'.forks[i]) {
      if i < |kept| {
        assert t'.forks[i] in kept;
        assert GoodCandidate(t, t'.forks[i]);
      }
    }
    forall i, j | 0 <= i < j < |t'.forks| ensures t'.forks[i].hash != t'.forks[j].hash {
      if j == |kept| {
        assert t'.forks[i] in kept;
        assert t'.forks[i].hash in t.headers;
      }
    }
    if LeavesAreCandidates(t) {
      assert t'.forks[|kept|].hash == h.BlockHash();
      CandidatesCover(t, t', h);
    }
  }

  lemma ExtendCandidateValid(t: Tree, h: Header, i: nat)
    requires Valid(t) && i < |t.forks| && t.forks[i].hash == h.prev
    requires h.prev != t.tip.hash && h.BlockHash() !in t.headers
    ensures Valid(ExtendCandidate(t, h, i).0)
    ensures LeavesAreCandidates(t) && !ExtendCandidate(t, h, i).1.Rejected?
            ==> LeavesAreCandidates(ExtendCandidate(t, h, i).0)
  {
    var (t', changes) := ExtendCandidate(t, h, i);
    assert GoodCandidate(t, t.forks[i]);
    var kept := SwapRemove(t.forks, i);
    forall f ensures f in kept <==> f in t.forks && f.hash != h.prev {
      SwapRemoveMembers(t.forks, i, f);
    }
    SwapRemoveDistinct(t.forks, i);
    var height := t.headers[h.prev].height + 1;
    if changes.Rejected? {
      forall j | 0 <= j < |kept| ensures GoodCandidate(t', kept[j]) {
        assert kept[j] in kept;
        assert GoodCandidate(t, kept[j]);
      }
      SameHeaders(t, t');
    } else if changes.ExtendedFork? {
      AddCandidateValid(t, h, height, kept, t', t'.forks[|kept|]);
    } else {
      ReorganizationValid(t, h, height, kept, t');
    }
  }

  lemma ReorganizationValid(t: Tree, h: Header, height: nat, kept: seq<Tip>, t': Tree)
    requires Valid(t) && Attaches(t, h) && height == ParentHeight(t, h) + 1
    requires h.prev != t.tip.hash && h.prev in t.headers
    requires forall f :: f in kept <==> f in t.forks && f.hash != h.prev
    requires forall i, j | 0 <= i < j < |kept| :: kept[i].hash != kept[j].hash
    requires t'.tip.hash == h.BlockHash() && t'.tip.height == height
    requires t' == WithLeaf(t, h, height).(forks := kept + [t.tip], tip := t'.tip, index := t'.index)
    requires t'.index == Switch(t'.headers, t.index, h.BlockHash()).index
    ensures Valid(t')
    ensures LeavesAreCandidates(t) ==> LeavesAreCandidates(t')
  {
    var leaf := WithLeaf(t, h, height);
    LeafPlaced(t, h, height);
    SameHeaders(leaf, t');
    LeafIsNoParent(t, h);
    forall x ensures Childless(t', x) <==> Childless(t, x) && x != h.prev {
      LeafChildren(t, h, height, x);
    }
    LeafChildren(t, h, height, h.BlockHash());
    forall i | 0 <= i < |t'.forks| ensures GoodCandidate(t', t'.forks[i]) {
      if i < |kept| {
        assert t'.forks[i] in kept;
        assert GoodCandidate(t, t'.forks[i]);
      }
    }
    forall i, j | 0 <= i < j < |t'.forks| ensures t'.forks[i].hash != t'.forks[j].hash {
      if j == |kept| {
        assert t'.forks[i] in kept;
        assert GoodCandidate(t, t'.forks[i]);
      }
    }
    assert t.headers[h.BlockHash() := t'.headers[h.BlockHash()]] == t'.headers;
    SwitchKeepsPlaced(t'.headers, t.index, h.BlockHash());
    if LeavesAreCandidates(t) {
      assert t'.forks[|kept|] == t.tip;
      CandidatesCover(t, t', h);
    }
  }

  /** `h` extends a candidate fork with bits that the fork does not demand. */
  ghost predicate DropsCandidate(t: Tree, h: Header) {
    var i := Position(t.forks, h.prev);
    && h.prev != t.tip.hash && h.BlockHash() !in t.headers && i < |t.forks|
    && h.prev in t.headers
    && BadBits(NextWork(t, t.headers[h.prev].height + 1, t.forks[i].nextWork), h)
  }

  lemma PositionFindsCandidate(t: Tree, x: Hash)
    ensures IsCandidate(t, x) <==> Position(t.forks, x) < |t.forks|
  {
  }

  lemma AcceptKeepsOrigin(t: Tree, h: Header)
    ensures Accept(t, h).0.net == t.net && Accept(t, h).0.origin == t.origin
  {
  }

  lemma CandidateRejectedIff(t: Tree, h: Header, i: nat)
    requires i < |t.forks| && i == Position(t.forks, h.prev) && h.prev in t.headers
    requires h.prev != t.tip.hash && h.BlockHash() !in t.headers
    ensures ExtendCandidate(t, h, i).1.Rejected? <==> DropsCandidate(t, h)
  {
  }

  lemma AcceptExtendsCandidate(t: Tree, h: Header, i: nat)
    requires Valid(t) && h.prev != t.tip.hash && h.BlockHash() !in t.headers
    requires i == Position(t.forks, h.prev) && i < |t.forks|
    ensures Valid(ExtendCandidate(t, h, i).0)
    ensures LeavesAreCandidates(t) && !DropsCandidate(t, h)
            ==> LeavesAreCandidates(ExtendCandidate(t, h, i).0)
  {
    assert h.prev in t.headers by {
      assert GoodCandidate(t, t.forks[i]);
    }
    CandidateRejectedIff(t, h, i);
    ExtendCandidateValid(t, h, i);
  }

  lemma AcceptValid(t: Tree, h: Header)
    requires Valid(t)
    ensures Valid(Accept(t, h).0)
    ensures Accept(t, h).0.net == t.net && Accept(t, h).0.origin == t.origin
    ensures LeavesAreCandidates(t) && !DropsCandidate(t, h) ==> LeavesAreCandidates(Accept(t, h).0)
  {
    AcceptKeepsOrigin(t, h);
    var i := Position(t.forks, h.prev);
    if h.prev == t.tip.hash {
      assert Accept(t, h) == ExtendTip(t, h);
      ExtendTipValid(t, h);
    } else if h.BlockHash() in t.headers {
      assert Accept(t, h).0 == t;
    } else if i < |t.forks| {
      assert Accept(t, h) == ExtendCandidate(t, h, i);
      AcceptExtendsCandidate(t, h, i);
    } else if h.prev in t.headers {
      assert Accept(t, h) == StartFork(t, h);
      PositionFindsCandidate(t, h.prev);
      StartForkValid(t, h);
    } else {
      assert Accept(t, h).0 == t;
    }
  }

  lemma DroppedCandidateIsForgotten(t: Tree, h: Header)
    requires Valid(t) && DropsCandidate(t, h)
    ensures var t' := Accept(t, h).0;
            h.prev in t'.headers && Childless(t', h.prev) && h.prev != t'.tip.hash && !IsCandidate(t', h.prev)
  {
    var i := Position(t.forks, h.prev);
    assert GoodCandidate(t, t.forks[i]);
    var kept := SwapRemove(t.forks, i);
    assert Accept(t, h).0 == t.(forks := kept);
    forall j | 0 <= j < |kept| ensures kept[j].hash != h.prev {
      SwapRemoveMembers(t.forks, i, kept[j]);
      assert kept[j] in kept;
    }
  }

  /** The candidate forks stay exactly the leaves other than the tip, unless the step is the
      rejection of an extension of one of them: then that fork is given up for good. */
  lemma CandidatesStayLeavesIff(t: Tree, h: Header)
    requires Valid(t) && LeavesAreCandidates(t)
    ensures LeavesAreCandidates(Accept(t, h).0) <==> !DropsCandidate(t, h)
  {
    AcceptValid(t, h);
    if DropsCandidate(t, h) {
      DroppedCandidateIsForgotten(t, h);
    }
  }

  // ---------- Cached values against their recursive definitions ----------

  /** The work of the headers on the walk from `x`. */
  ghost function WalkWork(hs: map<Hash, BlockNode>, x: Hash): nat {
    if !x.Of? || x !in hs then 0 else x.header.bits.work + WalkWork(hs, x.header.prev)
  }

  lemma {:induction false} CachedWorkIsWalkWork(t: Tree, x: Hash)
    requires AllPlaced(t)
    ensures WorkOf(t, x) == WalkWork(t.headers, x)
    decreases x
  {
    if x in t.headers {
      assert Placed(t, x);
      CachedWorkIsWalkWork(t, x.header.prev);
    }
  }

  /** The walk goes down one height at a time, so it ends and visits no header twice. */
  lemma {:induction false} WalkDescends(t: Tree, x: Hash, stop: Hash, i: nat)
    requires AllPlaced(t) && i < |Walk(t.headers, x, stop)|
    ensures x in t.headers && Walk(t.headers, x, stop)[i] in t.headers
    ensures t.headers[Walk(t.headers, x, stop)[i]].height == t.headers[x].height - i
  {
    assert Placed(t, x);
    if 0 < i {
      WalkDescends(t, x.header.prev, stop, i - 1);
      assert Placed(t, x.header.prev);
    }
  }
}
