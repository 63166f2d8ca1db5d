/** The height index against the walk along `prev_blockhash`, and the report of a
    reorganization. */
module GraphIndex {
  import opened Hashes
  import opened Graph
  import opened GraphInvariant

  // ---------- The walk ----------

  /** The walk from a stored header runs through stored headers down to the origin. */
  lemma {:induction false} AncestorsAreStored(t: Tree, x: Hash, a: Hash)
    requires AllPlaced(t) && x in t.headers
    requires Descends(x, a) && Depth(t.origin.hash) < Depth(a)
    ensures a in t.headers
  {
    assert Placed(t, x);
    if x != a {
      DescendsDepth(x.header.prev, a);
      AncestorsAreStored(t, x.header.prev, a);
    }
  }

  lemma {:induction false} StoredDescendsFromOrigin(t: Tree, x: Hash)
    requires AllPlaced(t) && x in t.headers
    ensures Descends(x, t.origin.hash)
  {
    assert Placed(t, x);
    if x.header.prev in t.headers {
      StoredDescendsFromOrigin(t, x.header.prev);
    }
  }

  /** Two stored ancestors of one header at one height are the same header. */
  lemma OnePerHeight(t: Tree, x: Hash, a: Hash, b: Hash)
    requires AllPlaced(t) && a in t.headers && b in t.headers
    requires Descends(x, a) && Descends(x, b)
    requires t.headers[a].height == t.headers[b].height
    ensures a == b
  {
    assert Placed(t, a) && Placed(t, b);
    AncestorsAreOrdered(x, a, b);
  }

  lemma OriginNotStored(t: Tree)
    requires AllPlaced(t)
    ensures t.origin.hash !in t.headers
  {
    assert forall x | x in t.headers :: Placed(t, x) && Depth(t.origin.hash) < Depth(x);
  }

  lemma RootByDepth(t: Tree, x: Hash)
    requires AllPlaced(t) && x in t.headers
    ensures IsRoot(t, x) <==> Depth(x) == Depth(t.origin.hash) + 1
    ensures IsRoot(t, x) <==> t.headers[x].height == t.origin.height + 1
    ensures !IsRoot(t, x) ==> t.headers[x].header.prev in t.headers
  {
    assert Placed(t, x);
    if x.header.prev in t.headers {
      assert Placed(t, x.header.prev);
    }
  }

  // ---------- Exactness ----------

  /** Nothing but the active chain is indexed. */
  ghost predicate OnlyActiveIndexed(t: Tree) {
    forall k | k in t.index :: Active(t, t.index[k])
  }

  /** Every active header above the root is indexed at its height. */
  ghost predicate ActiveIndexed(t: Tree) {
    forall x | Active(t, x) && !IsRoot(t, x) :: t.headers[x].height in t.index
  }

  ghost predicate Exact(t: Tree) {
    OnlyActiveIndexed(t) && ActiveIndexed(t)
  }

  ghost predicate RootIndexed(t: Tree) {
    forall x | IsRoot(t, x) :: t.headers[x].height in t.index
  }

  /** The ancestor of the tip at a height above the origin. */
  ghost function AtHeight(t: Tree, k: nat): (a: Hash)
    requires Valid(t) && t.headers != map[] && t.origin.height < k <= t.tip.height
    ensures Active(t, a) && t.headers[a].height == k
  {
    assert Placed(t, t.tip.hash);
    var a := AncestorAt(t.tip.hash, k - t.origin.height + Depth(t.origin.hash));
    AncestorsAreStored(t, t.tip.hash, a);
    assert Placed(t, a);
    a
  }

  lemma ActiveIsAtHeight(t: Tree, x: Hash)
    requires Valid(t) && Active(t, x)
    ensures t.headers != map[] && t.origin.height < t.headers[x].height <= t.tip.height
    ensures x == AtHeight(t, t.headers[x].height)
  {
    assert Placed(t, x) && Placed(t, t.tip.hash);
    DescendsDepth(t.tip.hash, x);
    OnePerHeight(t, t.tip.hash, x, AtHeight(t, t.headers[x].height));
  }

  /** An exact index answers every height above the root up to the tip with the ancestor of
      the tip at that height, and has no entry above the tip or below the root. */
  lemma ExactIsTheWalk(t: Tree, k: nat)
    requires Valid(t) && Exact(t) && t.headers != map[]
    ensures t.origin.height + 1 < k <= t.tip.height ==> k in t.index
    ensures k in t.index ==> t.origin.height < k <= t.tip.height && t.index[k] == AtHeight(t, k)
  {
    if k in t.index {
      assert Active(t, t.index[k]);
      ActiveIsAtHeight(t, t.index[k]);
    } else if t.origin.height + 1 < k <= t.tip.height {
      RootByDepth(t, AtHeight(t, k));
      assert false;
    }
  }

  // ---------- Switching to a fork ----------

  /** Up to the height of `x`, the index is exact for the chain that ends at `prior`. */
  ghost predicate ExactBelow(t: Tree, index: map<nat, Hash>, prior: Hash, top: int) {
    && (forall k | k in index && k <= top :: Descends(prior, index[k]))
    && (forall y | y in t.headers && Descends(prior, y) && !IsRoot(t, y) && t.headers[y].height <= top ::
          t.headers[y].height in index)
  }

  /** The walk has come down to `x`; `y` is where the prior chain stands, at the same height
      or, while `x` is still above the prior tip, that tip itself. */
  ghost predicate Abreast(t: Tree, prior: Hash, x: Hash, y: Hash) {
    && x in t.headers && y in t.headers && Descends(prior, y)
    && Depth(y) <= Depth(x) && (y == prior || Depth(y) == Depth(x))
  }

  lemma ExactBelowHit(t: Tree, index: map<nat, Hash>, prior: Hash, x: Hash, y: Hash)
    requires AllPlaced(t) && OneRoot(t) && IndexOver(t.headers, index)
    requires Abreast(t, prior, x, y) && ExactBelow(t, index, prior, t.headers[x].height)
    ensures t.headers[x].height in index ==> Depth(x) == Depth(y) && index[t.headers[x].height] == y
    ensures t.headers[x].height !in index && Depth(x) == Depth(y) ==> x == y && IsRoot(t, y)
    ensures x != y ==> !IsRoot(t, x) && (Depth(x) == Depth(y) ==> !IsRoot(t, y))
  {
    var k := t.headers[x].height;
    assert Placed(t, x) && Placed(t, y);
    RootByDepth(t, x);
    RootByDepth(t, y);
    if k in index {
      assert Placed(t, index[k]);
      DescendsDepth(prior, index[k]);
      AncestorsAreOrdered(prior, index[k], y);
    }
  }

  lemma ExactBelowStep(t: Tree, index: map<nat, Hash>, prior: Hash, x: Hash)
    requires AllPlaced(t) && x in t.headers
    requires ExactBelow(t, index, prior, t.headers[x].height)
    ensures ExactBelow(t, index[t.headers[x].height := x], prior, t.headers[x].height - 1)
  {
  }

  /** What switching to `x` does to an index that is exact for the prior chain. */
  lemma {:induction false} SwitchIsExact(t: Tree, index: map<nat, Hash>, prior: Hash, x: Hash, y: Hash)
    requires AllPlaced(t) && OneRoot(t) && IndexOver(t.headers, index)
    requires Abreast(t, prior, x, y) && ExactBelow(t, index, prior, t.headers[x].height)
    ensures var s := Switch(t.headers, index, x).index;
            && ExactBelow(t, s, x, t.headers[x].height)
            && index.Keys <= s.Keys
            && (forall k | k in s && t.headers[x].height < k :: k in index && s[k] == index[k])
    decreases x
  {
    var k := t.headers[x].height;
    var s := Switch(t.headers, index, x).index;
    assert Placed(t, x) && Placed(t, y);
    ExactBelowHit(t, index, prior, x, y);
    if k in index && index[k] == x {
      assert s == index;
      forall j | j in s && j <= k ensures Descends(x, s[j]) {
        assert Placed(t, s[j]);
        AncestorsAreOrdered(prior, s[j], x);
      }
      forall z | z in t.headers && Descends(x, z) && !IsRoot(t, z) && t.headers[z].height <= k
        ensures t.headers[z].height in s
      {
        DescendsTransitive(prior, x, z);
      }
    } else {
      var next := index[k := x];
      ExactBelowStep(t, index, prior, x);
      assert s == Switch(t.headers, next, x.header.prev).index;
      if IsRoot(t, x) {
        RootByDepth(t, x);
        RootNeedsNoSwitch(t, next, x);
        assert s == next;
        SwitchedAtRoot(t, next, x);
      } else {
        RootByDepth(t, x);
        var y' := if Depth(y) == Depth(x) then y.header.prev else y;
        RootByDepth(t, y);
        if Depth(y) == Depth(x) {
          DescendsTransitive(prior, y, y');
        }
        assert Placed(t, x.header.prev);
        assert t.headers[x.header.prev].height == k - 1;
        SwitchIsExact(t, next, prior, x.header.prev, y');
        SwitchedAbove(t, s, x);
      }
    }
  }

  lemma SwitchedAtRoot(t: Tree, index: map<nat, Hash>, x: Hash)
    requires AllPlaced(t) && OneRoot(t) && IndexOver(t.headers, index) && IsRoot(t, x)
    requires t.headers[x].height in index && index[t.headers[x].height] == x
    ensures ExactBelow(t, index, x, t.headers[x].height)
  {
    RootByDepth(t, x);
    forall j | j in index && j <= t.headers[x].height ensures Descends(x, index[j]) {
      assert Placed(t, index[j]);
      RootByDepth(t, index[j]);
    }
    forall z | z in t.headers && Descends(x, z) ensures IsRoot(t, z) {
      RootByDepth(t, z);
      DescendsDepth(x, z);
      assert Placed(t, z);
    }
  }

  lemma SwitchedAbove(t: Tree, s: map<nat, Hash>, x: Hash)
    requires AllPlaced(t) && x in t.headers && x.Of? && x.header.prev in t.headers
    requires ExactBelow(t, s, x.header.prev, t.headers[x].height - 1)
    requires t.headers[x].height in s && s[t.headers[x].height] == x
    ensures ExactBelow(t, s, x, t.headers[x].height)
  {
    assert Placed(t, x);
    forall z | z in t.headers && Descends(x, z) && !IsRoot(t, z) && t.headers[z].height <= t.headers[x].height
      ensures t.headers[z].height in s
    {
      if z != x {
        assert Placed(t, z) && Placed(t, x.header.prev);
        DescendsDepth(x.header.prev, z);
      }
    }
  }

  // ---------- The report ----------

  ghost function IndexedAt(hs: map<Hash, BlockNode>, x: Hash): Indexed
    requires x in hs
  {
    Indexed(hs[x].height, hs[x].header)
  }

  /** Where the prior chain stands after the walk has moved from `x` to its parent. */
  ghost function StepDown(x: Hash, y: Hash): Hash
    requires y.Of?
  {
    if Depth(y) == Depth(x) then y.header.prev else y
  }

  lemma AbreastStep(t: Tree, index: map<nat, Hash>, prior: Hash, x: Hash, y: Hash)
    requires AllPlaced(t) && OneRoot(t) && IndexOver(t.headers, index)
    requires Abreast(t, prior, x, y) && ExactBelow(t, index, prior, t.headers[x].height)
    requires x != y
    ensures x.Of? && y.Of? && x.header.prev in t.headers
    ensures var next := index[t.headers[x].height := x];
            && IndexOver(t.headers, next)
            && Abreast(t, prior, x.header.prev, StepDown(x, y))
            && ExactBelow(t, next, prior, t.headers[x.header.prev].height)
    ensures Meet(x, y) == Meet(x.header.prev, StepDown(x, y))
  {
    assert Placed(t, x) && Placed(t, y);
    ExactBelowHit(t, index, prior, x, y);
    RootByDepth(t, x);
    RootByDepth(t, y);
    ExactBelowStep(t, index, prior, x);
    assert Placed(t, x.header.prev);
    if Depth(y) == Depth(x) {
      DescendsTransitive(prior, y, y.header.prev);
    }
  }

  lemma SwitchUnfolds(hs: map<Hash, BlockNode>, index: map<nat, Hash>, x: Hash)
    requires x in hs && x.Of? && IndexOver(hs, index)
    ensures var k := hs[x].height;
            Switch(hs, index, x) ==
            if k in index && index[k] == x then Switched(index, [], [])
            else
              var rest := Switch(hs, index[k := x], x.header.prev);
              Switched(rest.index, [IndexedAt(hs, x)] + rest.accepted,
                       (if k in index then [IndexedAt(hs, index[k])] else []) + rest.disconnected)
  {
  }

  lemma ReportsDownToMeet(t: Tree, x: Hash, y: Hash)
    requires AllPlaced(t) && x in t.headers && y in t.headers
    ensures var f := Meet(x, y);
            && Descends(x, f) && Descends(y, f) && Depth(f) <= Depth(x) && Depth(f) <= Depth(y)
            && (Depth(x) == Depth(f) ==> x == f) && (Depth(y) == Depth(f) ==> y == f)
  {
    StoredDescendsFromOrigin(t, x);
    StoredDescendsFromOrigin(t, y);
    MeetIsDeepestCommonAncestor(x, y, t.origin.hash);
    DescendsDepth(x, Meet(x, y));
    DescendsDepth(y, Meet(x, y));
  }

  /** The lists that a switch reports are the two branches above the point where they meet,
      newest first. The meeting point itself is reported only while it is not indexed. */
  lemma {:induction false} SwitchReports(t: Tree, index: map<nat, Hash>, prior: Hash, x: Hash, y: Hash)
    requires AllPlaced(t) && OneRoot(t) && IndexOver(t.headers, index)
    requires Abreast(t, prior, x, y) && ExactBelow(t, index, prior, t.headers[x].height)
    ensures var s, f := Switch(t.headers, index, x), Meet(x, y);
            && f in t.headers
            && s.accepted == Report(t.headers, x, f)
               + (if t.headers[f].height in index then [] else [IndexedAt(t.headers, f)])
            && s.disconnected == Report(t.headers, y, f)
    decreases x
  {
    var hs, k, f := t.headers, t.headers[x].height, Meet(x, y);
    assert Placed(t, x) && Placed(t, y);
    if x == y {
      SwitchReportsAtMeet(t, index, prior, x);
    } else {
      AbreastStep(t, index, prior, x, y);
      ReportsDownToMeet(t, x, y);
      var next, y' := index[k := x], StepDown(x, y);
      SwitchReports(t, next, prior, x.header.prev, y');
      SwitchStepReports(t, index, prior, x, y);
      assert Placed(t, f);
      assert t.headers[f].height in next <==> t.headers[f].height in index;
      assert Report(hs, x, f) == [IndexedAt(hs, x)] + Report(hs, x.header.prev, f);
      assert y' != y ==> Report(hs, y, f) == [IndexedAt(hs, y)] + Report(hs, y', f);
    }
  }

  lemma SwitchReportsAtMeet(t: Tree, index: map<nat, Hash>, prior: Hash, x: Hash)
    requires AllPlaced(t) && OneRoot(t) && IndexOver(t.headers, index)
    requires Abreast(t, prior, x, x) && ExactBelow(t, index, prior, t.headers[x].height)
    ensures var s := Switch(t.headers, index, x);
            && s.accepted == (if t.headers[x].height in index then [] else [IndexedAt(t.headers, x)])
            && s.disconnected == []
  {
    var k := t.headers[x].height;
    assert Placed(t, x);
    ExactBelowHit(t, index, prior, x, x);
    SwitchUnfolds(t.headers, index, x);
    if k !in index {
      RootNeedsNoSwitch(t, index[k := x], x);
    }
  }

  lemma SwitchStepReports(t: Tree, index: map<nat, Hash>, prior: Hash, x: Hash, y: Hash)
    requires AllPlaced(t) && OneRoot(t) && IndexOver(t.headers, index)
    requires Abreast(t, prior, x, y) && ExactBelow(t, index, prior, t.headers[x].height)
    requires x != y && x.Of? && y.Of?
    ensures var s := Switch(t.headers, index, x);
            var rest := Switch(t.headers, index[t.headers[x].height := x], x.header.prev);
            && s.accepted == [IndexedAt(t.headers, x)] + rest.accepted
            && s.disconnected ==
               (if StepDown(x, y) == y then [] else [IndexedAt(t.headers, y)]) + rest.disconnected
  {
    assert Placed(t, x) && Placed(t, y);
    ExactBelowHit(t, index, prior, x, y);
    SwitchUnfolds(t.headers, index, x);
  }

  lemma RootNeedsNoSwitch(t: Tree, index: map<nat, Hash>, x: Hash)
    requires AllPlaced(t) && x.Of? && IsRoot(t, x)
    ensures Switch(t.headers, index, x.header.prev) == Switched(index, [], [])
  {
    OriginNotStored(t);
    assert Placed(t, x);
  }

  // ---------- The index as rows ----------

  ghost function RowsOf(hs: map<Hash, BlockNode>, index: map<nat, Hash>): map<nat, Header> {
    map k | k in index && index[k] in hs :: hs[index[k]].header
  }

  ghost function Rows(list: seq<Indexed>): map<nat, Header> {
    if list == [] then map[] else map[list[0].height := list[0].header] + Rows(list[1..])
  }

  ghost function Heights(list: seq<Indexed>): set<nat> {
    set i | i in list :: i.height
  }

  /** Whatever the index held, a switch overlays it with what it reports as accepted. */
  lemma {:induction false} SwitchOverlays(t: Tree, index: map<nat, Hash>, x: Hash)
    requires AllPlaced(t) && IndexOver(t.headers, index)
    ensures var s := Switch(t.headers, index, x);
            && RowsOf(t.headers, s.index) == RowsOf(t.headers, index) + Rows(s.accepted)
            && Heights(s.disconnected) <= Rows(s.accepted).Keys
    decreases x
  {
    var hs, s := t.headers, Switch(t.headers, index, x);
    if x in hs && !(hs[x].height in index && index[hs[x].height] == x) {
      var k := hs[x].height;
      var next := index[k := x];
      assert Placed(t, x);
      SwitchOverlays(t, next, x.header.prev);
      SwitchUnfolds(hs, index, x);
      var rest := Switch(hs, next, x.header.prev);
      OverlayStep(hs, index, x, rest.accepted);
      assert s.accepted == [IndexedAt(hs, x)] + rest.accepted;
    } else {
      assert s == Switched(index, [], []);
    }
  }

  lemma OverlayStep(hs: map<Hash, BlockNode>, index: map<nat, Hash>, x: Hash, rest: seq<Indexed>)
    requires x in hs
    ensures Rows([IndexedAt(hs, x)] + rest) == map[hs[x].height := hs[x].header] + Rows(rest)
    ensures RowsOf(hs, index[hs[x].height := x]) + Rows(rest)
         == RowsOf(hs, index) + Rows([IndexedAt(hs, x)] + rest)
  {
    assert ([IndexedAt(hs, x)] + rest)[1..] == rest;
    assert RowsOf(hs, index[hs[x].height := x]) == RowsOf(hs, index) + map[hs[x].height := hs[x].header];
  }

  /** A switch forgets no height. */
  lemma {:induction false} SwitchOnlyAdds(t: Tree, index: map<nat, Hash>, x: Hash, k: nat)
    ensures k in index ==> k in Switch(t.headers, index, x).index
    decreases x
  {
    if x.Of? && x in t.headers && !(t.headers[x].height in index && index[t.headers[x].height] == x) {
      SwitchOnlyAdds(t, index[t.headers[x].height := x], x.header.prev, k);
    }
  }

  lemma {:induction false} SwitchLeavesAbove(t: Tree, index: map<nat, Hash>, x: Hash, k: nat)
    requires AllPlaced(t) && x in t.headers && t.headers[x].height < k
    ensures var s := Switch(t.headers, index, x).index;
            (k in s <==> k in index) && (k in index ==> s[k] == index[k])
    decreases x
  {
    assert Placed(t, x);
    if !(t.headers[x].height in index && index[t.headers[x].height] == x) && x.header.prev in t.headers {
      assert Placed(t, x.header.prev);
      SwitchLeavesAbove(t, index[t.headers[x].height := x], x.header.prev, k);
    }
  }

  // ---------- Reorganizations ----------

  ghost predicate Reorganizes(t: Tree, h: Header) {
    Accept(t, h).1.Reorganization?
  }

  lemma ReorganizationBranch(t: Tree, h: Header)
    requires Reorganizes(t, h)
    ensures h.prev != t.tip.hash && h.BlockHash() !in t.headers
    ensures var i := Position(t.forks, h.prev);
            i < |t.forks| && t.forks[i].hash == h.prev && Accept(t, h) == ExtendCandidate(t, h, i)
  {
  }

  lemma ExtendCandidateSwitches(t: Tree, h: Header, i: nat)
    requires i < |t.forks| && t.forks[i].hash == h.prev && h.prev in t.headers
    requires ExtendCandidate(t, h, i).1.Reorganization?
    ensures var w := WithLeaf(t, h, t.headers[h.prev].height + 1);
            var (t', changes) := ExtendCandidate(t, h, i);
            && t'.headers == w.headers && t'.origin == t.origin && t'.tip.hash == h.BlockHash()
            && t'.tip.height == t.headers[h.prev].height + 1
            && var s := Switch(w.headers, t.index, h.BlockHash());
               t'.index == s.index && changes == Reorganization(s.accepted, s.disconnected)
  {
  }

  lemma ReorganizationShape(t: Tree, h: Header)
    requires Valid(t) && Reorganizes(t, h)
    ensures h.prev in t.headers && h.prev != t.tip.hash && t.headers != map[]
    ensures var w, t' := WithLeaf(t, h, t.headers[h.prev].height + 1), Accept(t, h).0;
            && Attaches(t, h) && AllPlaced(w) && OneRoot(w)
            && t'.headers == w.headers && t'.origin == t.origin && t'.tip.hash == h.BlockHash()
            && t'.tip.height == t.headers[h.prev].height + 1
            && var s := Switch(w.headers, t.index, h.BlockHash());
               t'.index == s.index && Accept(t, h).1 == Reorganization(s.accepted, s.disconnected)
  {
    ReorganizationBranch(t, h);
    var i := Position(t.forks, h.prev);
    assert GoodCandidate(t, t.forks[i]);
    ExtendCandidateSwitches(t, h, i);
    LeafPlaced(t, h, t.headers[h.prev].height + 1);
  }

  lemma TipStaysActiveInLeaf(t: Tree, h: Header, height: nat, y: Hash)
    requires Valid(t) && Attaches(t, h) && t.headers != map[]
    requires Descends(t.tip.hash, y) && y in WithLeaf(t, h, height).headers
    ensures Active(t, y)
  {
    if y == h.BlockHash() {
      assert Placed(t, h.prev);
      AncestorsAreStored(t, t.tip.hash, y);
      assert false;
    }
  }

  /** When the switch starts, the index is exact for the chain about to be replaced. */
  lemma ExactBeforeSwitch(t: Tree, h: Header)
    requires Valid(t) && Exact(t) && Reorganizes(t, h)
    ensures var w := WithLeaf(t, h, t.headers[h.prev].height + 1);
            && IndexOver(w.headers, t.index)
            && ExactBelow(w, t.index, t.tip.hash, w.headers[h.BlockHash()].height)
            && (t.tip.height <= t.headers[h.prev].height + 1
                ==> Abreast(w, t.tip.hash, h.BlockHash(), t.tip.hash))
  {
    ReorganizationShape(t, h);
    var w := WithLeaf(t, h, t.headers[h.prev].height + 1);
    forall k | k in t.index ensures Descends(t.tip.hash, t.index[k]) {
      assert Active(t, t.index[k]);
    }
    forall y | y in w.headers && Descends(t.tip.hash, y) && !IsRoot(w, y)
      ensures t.headers != map[] && y in t.headers && w.headers[y] == t.headers[y] && w.headers[y].height in t.index
    {
      TipStaysActiveInLeaf(t, h, t.headers[h.prev].height + 1, y);
      assert !IsRoot(t, y);
    }
    assert Placed(w, h.BlockHash()) && Placed(w, t.tip.hash);
  }

  /** A reorganization keeps an exact index exact if and only if the new chain is at least
      as tall as the chain it replaces. */
  lemma ReorganizationKeepsIndexIff(t: Tree, h: Header)
    requires Valid(t) && Exact(t) && Reorganizes(t, h)
    ensures Exact(Accept(t, h).0) <==> t.tip.height <= t.headers[h.prev].height + 1
  {
    ReorganizationShape(t, h);
    ExactBeforeSwitch(t, h);
    var t' := Accept(t, h).0;
    var height, x := t.headers[h.prev].height + 1, h.BlockHash();
    var w := WithLeaf(t, h, height);
    if t.tip.height <= height {
      SwitchIsExact(w, t.index, t.tip.hash, x, t.tip.hash);
      forall k | k in t'.index ensures Active(t', t'.index[k]) {
        SwitchKeepsPlaced(w.headers, t.index, x);
        if height < k {
          assert Active(t, t.index[k]);
          ActiveIsAtHeight(t, t.index[k]);
          assert false;
        }
      }
      forall y | Active(t', y) && !IsRoot(t', y) ensures t'.headers[y].height in t'.index {
        assert !IsRoot(w, y);
        assert Placed(w, y) && Placed(w, x);
        DescendsDepth(x, y);
      }
    } else {
      RootByDepth(t, h.prev);
      RootByDepth(t, t.tip.hash);
      assert Placed(t, h.prev) && Active(t, t.tip.hash);
      assert t.tip.height in t.index;
      SwitchLeavesAbove(w, t.index, x, t.tip.height);
      if Exact(t') {
        AcceptValid(t, h);
        assert Active(t', t'.index[t.tip.height]);
        ActiveIsAtHeight(t', t'.index[t.tip.height]);
        assert false;
      }
    }
  }

  /** The report of a reorganization at least as tall as what it replaces: both branches down
      to the fork point, and the change of the index they stand for. */
  lemma ReorganizationReport(t: Tree, h: Header)
    requires Valid(t) && Exact(t) && Reorganizes(t, h)
    requires t.tip.height <= t.headers[h.prev].height + 1
    ensures var (t', changes) := Accept(t, h);
            var f := Meet(t'.tip.hash, t.tip.hash);
            && Active(t, f) && Active(t', f)
            && changes.disconnected == Report(t'.headers, t.tip.hash, f)
            && changes.accepted == Report(t'.headers, t'.tip.hash, f)
               + (if t.headers[f].height in t.index then [] else [IndexedAt(t.headers, f)])
            && (t.headers[f].height !in t.index ==> IsRoot(t, f))
  {
    ReorganizationShape(t, h);
    ExactBeforeSwitch(t, h);
    var t', x := Accept(t, h).0, h.BlockHash();
    var w := WithLeaf(t, h, t.headers[h.prev].height + 1);
    var f := Meet(x, t.tip.hash);
    SwitchReports(w, t.index, t.tip.hash, x, t.tip.hash);
    StoredDescendsFromOrigin(w, x);
    StoredDescendsFromOrigin(w, t.tip.hash);
    MeetIsDeepestCommonAncestor(x, t.tip.hash, t.origin.hash);
    TipStaysActiveInLeaf(t, h, t.headers[h.prev].height + 1, f);
    assert Active(t, f);
  }

  lemma OverlayHidesRemoval(rows: map<nat, Header>, gone: set<nat>, list: map<nat, Header>)
    requires gone <= list.Keys
    ensures (rows - gone) + list == rows + list
  {
  }

  lemma RowsIgnoreLeaf(t: Tree, h: Header, height: nat)
    requires IndexOver(t.headers, t.index) && h.BlockHash() !in t.headers
    ensures IndexOver(WithLeaf(t, h, height).headers, t.index)
    ensures RowsOf(WithLeaf(t, h, height).headers, t.index) == RowsOf(t.headers, t.index)
  {
  }

  /** With or without an exact index, the rows of the index change by what is reported. */
  lemma ReorganizationRows(t: Tree, h: Header)
    requires Valid(t) && Reorganizes(t, h)
    ensures var (t', changes) := Accept(t, h);
            RowsOf(t'.headers, t'.index)
            == (RowsOf(t.headers, t.index) - Heights(changes.disconnected)) + Rows(changes.accepted)
  {
    ReorganizationShape(t, h);
    var height := t.headers[h.prev].height + 1;
    var w := WithLeaf(t, h, height);
    RowsIgnoreLeaf(t, h, height);
    SwitchOverlays(w, t.index, h.BlockHash());
    var s := Switch(w.headers, t.index, h.BlockHash());
    OverlayHidesRemoval(RowsOf(t.headers, t.index), Heights(s.disconnected), Rows(s.accepted));
  }

  /** The headers reported as disconnected are stored at the reported heights, and every
      entry that is overlaid is among them. */
  lemma {:induction false} SwitchDisplaces(t: Tree, index: map<nat, Hash>, x: Hash)
    requires AllPlaced(t) && IndexOver(t.headers, index)
    ensures var s := Switch(t.headers, index, x);
            && (forall d | d in s.disconnected ::
                  d.header.BlockHash() in t.headers && t.headers[d.header.BlockHash()].height == d.height)
            && (forall k | k in index && k in Rows(s.accepted) :: IndexedAt(t.headers, index[k]) in s.disconnected)
            && (forall k | k in Rows(s.accepted) :: t.origin.height < k)
    decreases x
  {
    var hs, s := t.headers, Switch(t.headers, index, x);
    if x in hs && !(hs[x].height in index && index[hs[x].height] == x) {
      var k := hs[x].height;
      var next := index[k := x];
      assert Placed(t, x);
      SwitchDisplaces(t, next, x.header.prev);
      SwitchUnfolds(hs, index, x);
      var rest := Switch(hs, next, x.header.prev);
      OverlayStep(hs, index, x, rest.accepted);
      assert s.accepted == [IndexedAt(hs, x)] + rest.accepted;
      if k in index {
        assert Placed(t, index[k]);
        assert s.disconnected == [IndexedAt(hs, index[k])] + rest.disconnected;
      } else {
        assert s.disconnected == rest.disconnected;
      }
      forall j | j in index && j in Rows(s.accepted) ensures IndexedAt(hs, index[j]) in s.disconnected {
        if j != k {
          assert next[j] == index[j] && j in Rows(rest.accepted);
        }
      }
    } else {
      assert s == Switched(index, [], []);
    }
  }

  /** The same, for the two lists of a reorganization. */
  lemma ReorganizationDisplaces(t: Tree, h: Header)
    requires Valid(t) && Reorganizes(t, h)
    ensures var (t', changes) := Accept(t, h);
            && (forall d | d in changes.disconnected ::
                  d.header.BlockHash() in t'.headers && t'.headers[d.header.BlockHash()].height == d.height)
            && (forall k | k in t.index && k in Rows(changes.accepted) ::
                  IndexedAt(t.headers, t.index[k]) in changes.disconnected)
            && (forall k | k in Rows(changes.accepted) :: t.origin.height < k)
            && Heights(changes.disconnected) <= Rows(changes.accepted).Keys
  {
    ReorganizationShape(t, h);
    var height := t.headers[h.prev].height + 1;
    var w := WithLeaf(t, h, height);
    RowsIgnoreLeaf(t, h, height);
    SwitchDisplaces(w, t.index, h.BlockHash());
    SwitchOverlays(w, t.index, h.BlockHash());
    assert forall k | k in t.index :: IndexedAt(t.headers, t.index[k]) == IndexedAt(w.headers, t.index[k]);
  }

  // ---------- Every step ----------

  /** The new chain is at least as tall as the chain it replaces. */
  ghost predicate TallEnough(t: Tree, h: Header) {
    Reorganizes(t, h) ==> h.prev in t.headers && t.tip.height <= t.headers[h.prev].height + 1
  }

  lemma ExtendTipExact(t: Tree, h: Header)
    requires Valid(t) && Exact(t) && h.prev == t.tip.hash
    ensures Exact(ExtendTip(t, h).0)
  {
    var t' := ExtendTip(t, h).0;
    if t' != t {
      TipHasNoStoredChild(t, h);
      forall k | k in t'.index ensures Active(t', t'.index[k]) {
        if k in t.index && k != t'.tip.height {
          assert Active(t, t.index[k]);
        }
      }
      forall x | Active(t', x) && !IsRoot(t', x) ensures t'.headers[x].height in t'.index {
        if x != h.BlockHash() {
          assert Active(t, x) && !IsRoot(t, x);
        }
      }
    }
  }

  /** Headers may have been added to `t`, and candidates moved, but nothing else. */
  ghost predicate OnlyAdds(t: Tree, t': Tree) {
    && t'.tip == t.tip && t'.index == t.index && t'.origin == t.origin
    && t.headers.Keys <= t'.headers.Keys
    && (forall x | x in t.headers :: t'.headers[x] == t.headers[x])
    && (t.headers != map[] || t'.headers == t.headers)
  }

  lemma AddedForkExact(t: Tree, t': Tree)
    requires Valid(t) && Exact(t) && Valid(t') && OnlyAdds(t, t')
    ensures Exact(t')
  {
    forall k | k in t'.index ensures Active(t', t'.index[k]) {
      assert Active(t, t.index[k]);
    }
    forall x | Active(t', x) && !IsRoot(t', x) ensures t'.headers[x].height in t'.index {
      assert Placed(t', x);
      if t.headers != map[] {
        AncestorsAreStored(t, t.tip.hash, x);
      }
      assert Active(t, x) && !IsRoot(t, x);
    }
  }

  lemma CandidateOnlyAdds(t: Tree, h: Header, i: nat)
    requires Valid(t) && i < |t.forks| && t.forks[i].hash == h.prev && h.BlockHash() !in t.headers
    requires !ExtendCandidate(t, h, i).1.Reorganization?
    ensures OnlyAdds(t, ExtendCandidate(t, h, i).0)
  {
    assert GoodCandidate(t, t.forks[i]);
  }

  lemma NotReorganizing(t: Tree, h: Header)
    requires Valid(t) && !Reorganizes(t, h) && h.prev != t.tip.hash
    ensures OnlyAdds(t, Accept(t, h).0)
  {
    var i := Position(t.forks, h.prev);
    if h.BlockHash() !in t.headers && i < |t.forks| {
      assert Accept(t, h) == ExtendCandidate(t, h, i);
      CandidateOnlyAdds(t, h, i);
    } else if h.BlockHash() !in t.headers && h.prev in t.headers {
      assert Accept(t, h) == StartFork(t, h);
    }
  }

  /** The index stays exact on every step whose reorganization, if any, is tall enough. */
  lemma AcceptKeepsExact(t: Tree, h: Header)
    requires Valid(t) && Exact(t) && TallEnough(t, h)
    ensures Exact(Accept(t, h).0)
  {
    if h.prev == t.tip.hash {
      ExtendTipExact(t, h);
    } else if Reorganizes(t, h) {
      ReorganizationKeepsIndexIff(t, h);
    } else {
      NotReorganizing(t, h);
      AcceptValid(t, h);
      AddedForkExact(t, Accept(t, h).0);
    }
  }

  lemma StartsExact(net: Network, tip: Tip, height: nat, header: Header)
    ensures Exact(FromTip(net, tip)) && RootIndexed(FromTip(net, tip))
    ensures Exact(FromGenesis(net)) && RootIndexed(FromGenesis(net))
    ensures Exact(FromHeader(net, height, header))
  {
  }
}
