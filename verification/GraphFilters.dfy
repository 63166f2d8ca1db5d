/** Filter commitments and filter flags on the headers of a tree. */
module GraphFilters {
  import opened Hashes
  import opened Filters
  import opened Graph
  import opened GraphIndex

  // ---------- Setting commitments and flags ----------

  ghost function SetCommitment(hs: map<Hash, BlockNode>, c: Commitment, x: Hash): map<Hash, BlockNode> {
    if x in hs then hs[x := hs[x].(commitment := Some(c))] else hs
  }

  ghost function SetChecked(hs: map<Hash, BlockNode>, x: Hash, checked: bool): map<Hash, BlockNode> {
    if x in hs then hs[x := hs[x].(checked := checked)] else hs
  }

  /** Every active header up to a height counts as checked. */
  ghost function AssumeChecked(t: Tree, height: nat): Tree {
    t.(headers := map x | x in t.headers ::
      if Active(t, x) && t.headers[x].height <= height then t.headers[x].(checked := true) else t.headers[x])
  }

  /** Clear the flags on the walk from `x`. */
  ghost function ClearWalk(hs: map<Hash, BlockNode>, x: Hash): map<Hash, BlockNode>
    decreases x
  {
    if !x.Of? || x !in hs then hs else ClearWalk(SetChecked(hs, x, false), x.header.prev)
  }

  /** Clear the flags on the walk from `x`, up to the first header that is not checked. */
  ghost function ClearRun(hs: map<Hash, BlockNode>, x: Hash): map<Hash, BlockNode>
    decreases x
  {
    if !x.Of? || x !in hs || !hs[x].checked then hs
    else ClearRun(SetChecked(hs, x, false), x.header.prev)
  }

  ghost function ClearForks(hs: map<Hash, BlockNode>, forks: seq<Tip>): map<Hash, BlockNode>
    decreases |forks|
  {
    if forks == [] then hs else ClearForks(ClearRun(hs, forks[0].hash), forks[1..])
  }

  ghost function ResetFilters(t: Tree): Tree {
    t.(headers := ClearForks(ClearWalk(t.headers, t.tip.hash), t.forks))
  }

  // ---------- Questions about the active chain ----------

  ghost predicate AllCommitted(t: Tree) {
    forall x | Active(t, x) :: t.headers[x].commitment.Some?
  }

  ghost predicate AllChecked(t: Tree) {
    forall x | Active(t, x) :: t.headers[x].checked
  }

  ghost function BlockHashAt(t: Tree, k: nat): Option<Hash> {
    if t.tip.height == k then Some(t.tip.hash) else if k in t.index then Some(t.index[k]) else None
  }

  /** The lowest header of the uncommitted run below `x`, and the filter header it stops at. */
  ghost function UncommittedRun(hs: map<Hash, BlockNode>, x: Hash, lowest: nat): (nat, Option<FilterHeader>)
    decreases x
  {
    if !x.Of? || x !in hs then (lowest, None)
    else if hs[x].commitment.Some? then (lowest, Some(hs[x].commitment.value.header))
    else UncommittedRun(hs, x.header.prev, hs[x].height)
  }

  ghost function StopFor(t: Tree, height: nat): Hash {
    if BlockHashAt(t, height).Some? then BlockHashAt(t, height).value else t.tip.hash
  }

  ghost predicate CommitsTo(t: Tree, x: Hash, f: FilterHeader)
    requires x in t.headers
  {
    t.headers[x].commitment.Some? && t.headers[x].commitment.value.header == f
  }

  ghost predicate CommittedHeader(t: Tree, f: FilterHeader) {
    exists x :: Active(t, x) && CommitsTo(t, x, f)
  }

  /** The lowest header of the unchecked run below `x`. */
  ghost function UncheckedRun(hs: map<Hash, BlockNode>, x: Hash, lowest: nat): nat
    decreases x
  {
    if !x.Of? || x !in hs || hs[x].checked then lowest else UncheckedRun(hs, x.header.prev, hs[x].height)
  }

  /** Where an exact index answers, it answers with the active header at that height. */
  lemma BlockHashAtIsActive(t: Tree, k: nat)
    requires Valid(t) && Exact(t) && t.headers != map[]
    ensures BlockHashAt(t, k).Some? ==> t.origin.height < k <= t.tip.height && BlockHashAt(t, k).value == AtHeight(t, k)
    ensures t.origin.height + 1 < k <= t.tip.height ==> BlockHashAt(t, k).Some?
  {
    ExactIsTheWalk(t, k);
    ActiveIsAtHeight(t, t.tip.hash);
  }

  /** The newest `n` headers on the walk from `x`, by height. */
  ghost function Recent(hs: map<Hash, BlockNode>, x: Hash, n: nat): map<nat, Header>
    decreases n
  {
    if n == 0 || !x.Of? || x !in hs then map[]
    else Recent(hs, x.header.prev, n - 1)[hs[x].height := hs[x].header]
  }

  /** They are the active headers of the last `n` heights. */
  lemma {:induction false} RecentIsActive(t: Tree, x: Hash, n: nat, k: nat)
    requires Valid(t) && Active(t, x)
    ensures k in Recent(t.headers, x, n) <==> t.origin.height < k <= t.headers[x].height && t.headers[x].height < k + n
    ensures k in Recent(t.headers, x, n) ==>
              t.headers != map[] && k <= t.tip.height && Recent(t.headers, x, n)[k] == t.headers[AtHeight(t, k)].header
    decreases n
  {
    ActiveIsAtHeight(t, x);
    assert Placed(t, x);
    RootByDepth(t, x);
    if 0 < n {
      if x.header.prev in t.headers {
        assert Placed(t, x.header.prev);
        DescendsTransitive(t.tip.hash, x, x.header.prev);
        RecentIsActive(t, x.header.prev, n - 1, k);
      }
    }
  }

  /** How far a walk that stands at `x` has come: it is on the walk from the tip, and has
      left behind exactly the active headers deeper than `x`. */
  ghost predicate OnWalk(t: Tree, x: Hash) {
    Descends(t.tip.hash, x)
  }

  lemma WalkStarts(t: Tree)
    ensures OnWalk(t, t.tip.hash)
    ensures forall y | Active(t, y) :: Depth(y) <= Depth(t.tip.hash)
  {
    forall y | Active(t, y) ensures Depth(y) <= Depth(t.tip.hash) {
      DescendsDepth(t.tip.hash, y);
    }
  }

  lemma WalkStep(t: Tree, x: Hash, y: Hash)
    requires AllPlaced(t) && OnWalk(t, x) && x in t.headers
    ensures x == t.headers[x].header.BlockHash() && OnWalk(t, x.header.prev) && Active(t, x)
    ensures Active(t, y) ==> (Depth(x.header.prev) < Depth(y) <==> Depth(x) < Depth(y) || y == x)
  {
    assert Placed(t, x);
    DescendsTransitive(t.tip.hash, x, x.header.prev);
    if Active(t, y) && Depth(y) == Depth(x) {
      AncestorsAreOrdered(t.tip.hash, x, y);
    }
  }

  lemma WalkEnds(t: Tree, x: Hash, y: Hash)
    requires Valid(t) && OnWalk(t, x) && x !in t.headers && Active(t, y)
    ensures Depth(x) < Depth(y)
  {
    assert Placed(t, y);
    if Depth(t.origin.hash) < Depth(x) {
      AncestorsAreStored(t, t.tip.hash, x);
    }
  }

  // ---------- Only commitments and flags change ----------

  ghost predicate SameNode(n: BlockNode, m: BlockNode) {
    n.height == m.height && n.header == m.header && n.accWork == m.accWork
  }

  ghost predicate SameNodes(hs: map<Hash, BlockNode>, hs': map<Hash, BlockNode>) {
    hs.Keys == hs'.Keys && forall x | x in hs :: SameNode(hs[x], hs'[x])
  }

  ghost predicate SameShape(t: Tree, t': Tree) {
    t' == t.(headers := t'.headers) && SameNodes(t.headers, t'.headers)
  }

  lemma SameShapeKeeps(t: Tree, t': Tree)
    requires SameShape(t, t')
    ensures Valid(t) ==> Valid(t')
    ensures Exact(t) ==> Exact(t')
    ensures LeavesAreCandidates(t) ==> LeavesAreCandidates(t')
    ensures forall x :: Active(t, x) <==> Active(t', x)
    ensures forall x :: IsRoot(t, x) <==> IsRoot(t', x)
  {
    forall x ensures Childless(t, x) <==> Childless(t', x) {
      assert t.headers.Keys == t'.headers.Keys;
    }
    assert forall x :: IsCandidate(t, x) <==> IsCandidate(t', x);
    if Valid(t) {
      forall x | x in t'.headers ensures Placed(t', x) {
        assert Placed(t, x);
      }
      SameShapeValid(t, t');
    }
    if Exact(t) {
      assert forall k | k in t'.index :: Active(t, t.index[k]);
    }
  }

  lemma SameShapeValid(t: Tree, t': Tree)
    requires SameShape(t, t') && Valid(t) && AllPlaced(t')
    requires forall x :: Childless(t, x) <==> Childless(t', x)
    ensures Valid(t')
  {
    forall x, y | IsRoot(t', x) && IsRoot(t', y) ensures x == y {
      assert IsRoot(t, x) && IsRoot(t, y);
    }
    if t.headers != map[] {
      assert t'.headers != map[] by { assert t.tip.hash in t'.headers; }
    } else {
      assert t'.headers == map[];
    }
    forall i | 0 <= i < |t'.forks| ensures GoodCandidate(t', t'.forks[i]) {
      assert GoodCandidate(t, t.forks[i]);
    }
  }

  // ---------- What a reset clears ----------

  /** Only flags were cleared. */
  ghost predicate OnlyCleared(hs: map<Hash, BlockNode>, hs': map<Hash, BlockNode>) {
    && hs.Keys == hs'.Keys
    && forall x | x in hs :: hs'[x] == hs[x] || hs'[x] == hs[x].(checked := false)
  }

  /** The walk from `x` runs through stored, checked headers down to and including `y`. */
  ghost predicate CheckedRun(hs: map<Hash, BlockNode>, x: Hash, y: Hash)
    decreases x
  {
    && x.Of? && x in hs && hs[x].checked
    && (x == y || CheckedRun(hs, x.header.prev, y))
  }

  ghost predicate StoredWalk(hs: map<Hash, BlockNode>, x: Hash, y: Hash)
    decreases x
  {
    x.Of? && x in hs && (x == y || StoredWalk(hs, x.header.prev, y))
  }

  lemma {:induction false} ClearWalkClears(hs: map<Hash, BlockNode>, x: Hash, y: Hash)
    requires y in hs
    ensures OnlyCleared(hs, ClearWalk(hs, x))
    ensures ClearWalk(hs, x)[y].checked <==> hs[y].checked && !StoredWalk(hs, x, y)
    decreases x
  {
    if x.Of? && x in hs {
      var hs1 := SetChecked(hs, x, false);
      ClearWalkClears(hs1, x.header.prev, y);
      SameStoredWalk(hs, hs1, x.header.prev, y);
    }
  }

  lemma {:induction false} SameStoredWalk(hs: map<Hash, BlockNode>, hs': map<Hash, BlockNode>, x: Hash, y: Hash)
    requires hs.Keys == hs'.Keys
    ensures StoredWalk(hs, x, y) <==> StoredWalk(hs', x, y)
    decreases x
  {
    if x.Of? && x in hs && x != y {
      SameStoredWalk(hs, hs', x.header.prev, y);
    }
  }

  /** Clearing from `x` ends every checked run that passes through a header of the run. */
  lemma {:induction false} ClearRunClears(hs: map<Hash, BlockNode>, x: Hash, y: Hash)
    requires y in hs
    ensures OnlyCleared(hs, ClearRun(hs, x))
    ensures ClearRun(hs, x)[y].checked <==> hs[y].checked && !CheckedRun(hs, x, y)
    decreases x
  {
    if x.Of? && x in hs && hs[x].checked {
      var hs1 := SetChecked(hs, x, false);
      ClearRunClears(hs1, x.header.prev, y);
      RunBelow(hs, x, x.header.prev, y);
    }
  }

  /** A run that starts below `x` does not notice that `x` was cleared. */
  lemma {:induction false} RunBelow(hs: map<Hash, BlockNode>, x: Hash, from: Hash, y: Hash)
    requires x in hs && Depth(from) < Depth(x)
    ensures CheckedRun(SetChecked(hs, x, false), from, y) <==> CheckedRun(hs, from, y)
    decreases from
  {
    if from.Of? && from in hs && from != y {
      RunBelow(hs, x, from.header.prev, y);
    }
  }

  /** After clearing the run from `x`, a run from elsewhere reaches `y` if it did before and
      `y` was not cleared: where two runs join, both go on to the same end. */
  lemma {:induction false} RunAfterClear(hs: map<Hash, BlockNode>, x: Hash, from: Hash, y: Hash)
    requires y in hs && !CheckedRun(hs, x, y)
    ensures CheckedRun(ClearRun(hs, x), from, y) <==> CheckedRun(hs, from, y)
    decreases from
  {
    ClearRunClears(hs, x, y);
    if from.Of? && from in hs {
      ClearRunClears(hs, x, from);
      if from != y {
        RunAfterClear(hs, x, from.header.prev, y);
      }
      if CheckedRun(hs, x, from) && CheckedRun(hs, from, y) {
        RunsJoin(hs, x, from, y);
      }
    }
  }

  lemma {:induction false} RunsJoin(hs: map<Hash, BlockNode>, x: Hash, m: Hash, y: Hash)
    requires CheckedRun(hs, x, m) && CheckedRun(hs, m, y)
    ensures CheckedRun(hs, x, y)
    decreases x
  {
    if x != m {
      RunsJoin(hs, x.header.prev, m, y);
    }
  }

  ghost predicate RunFromForks(hs: map<Hash, BlockNode>, forks: seq<Tip>, y: Hash) {
    exists i :: 0 <= i < |forks| && CheckedRun(hs, forks[i].hash, y)
  }

  lemma {:induction false} ClearForksClears(hs: map<Hash, BlockNode>, forks: seq<Tip>, y: Hash)
    requires y in hs
    ensures OnlyCleared(hs, ClearForks(hs, forks))
    ensures ClearForks(hs, forks)[y].checked <==> hs[y].checked && !RunFromForks(hs, forks, y)
    decreases |forks|
  {
    if forks != [] {
      var hs1 := ClearRun(hs, forks[0].hash);
      ClearRunClears(hs, forks[0].hash, y);
      ClearForksClears(hs1, forks[1..], y);
      if !CheckedRun(hs, forks[0].hash, y) {
        forall i | 0 <= i < |forks[1..]|
          ensures CheckedRun(hs1, forks[1..][i].hash, y) <==> CheckedRun(hs, forks[1 + i].hash, y)
        {
          RunAfterClear(hs, forks[0].hash, forks[1 + i].hash, y);
        }
        if RunFromForks(hs, forks, y) {
          var i :| 0 <= i < |forks| && CheckedRun(hs, forks[i].hash, y);
          assert CheckedRun(hs1, forks[1..][i - 1].hash, y);
        }
      }
    }
  }

  lemma {:induction false} StoredWalkIsDescent(t: Tree, x: Hash, y: Hash)
    requires AllPlaced(t) && y in t.headers
    ensures StoredWalk(t.headers, x, y) <==> x in t.headers && Descends(x, y)
    decreases x
  {
    assert Placed(t, y);
    if x in t.headers {
      assert Placed(t, x);
      if x != y {
        StoredWalkIsDescent(t, x.header.prev, y);
        if Descends(x, y) {
          AncestorsAreStored(t, x, y);
          DescendsDepth(x.header.prev, y);
          AncestorsAreStoredBetween(t, x, y);
        }
      }
    }
  }

  lemma AncestorsAreStoredBetween(t: Tree, x: Hash, y: Hash)
    requires AllPlaced(t) && x in t.headers && y in t.headers && x.Of? && Descends(x.header.prev, y)
    ensures x.header.prev in t.headers
  {
    assert Placed(t, x) && Placed(t, y);
    DescendsDepth(x.header.prev, y);
  }

  /** A run to an inactive header stays off the active chain, so clearing that first changes
      nothing about it. */
  lemma {:induction false} RunOffActive(t: Tree, x: Hash, y: Hash)
    requires Valid(t) && y in t.headers && !Active(t, y)
    ensures CheckedRun(ClearWalk(t.headers, t.tip.hash), x, y) <==> CheckedRun(t.headers, x, y)
    decreases x
  {
    ClearWalkClears(t.headers, t.tip.hash, y);
    if x.Of? && x in t.headers {
      ClearWalkClears(t.headers, t.tip.hash, x);
      StoredWalkIsDescent(t, t.tip.hash, x);
      if x != y {
        RunOffActive(t, x.header.prev, y);
        if Active(t, x) && CheckedRun(t.headers, x, y) {
          RunDescends(t, x, y);
          DescendsTransitive(t.tip.hash, x, y);
        }
      } else {
        StoredWalkIsDescent(t, t.tip.hash, y);
      }
    }
  }

  lemma {:induction false} RunDescends(t: Tree, x: Hash, y: Hash)
    requires CheckedRun(t.headers, x, y)
    ensures Descends(x, y)
    decreases x
  {
    if x != y {
      RunDescends(t, x.header.prev, y);
    }
  }

  /** A rescan keeps a flag exactly on an inactive header that no candidate fork reaches through
      checked headers alone; every active header is due again. */
  lemma ResetKeepsFlagIff(t: Tree, y: Hash)
    requires Valid(t) && y in t.headers
    ensures SameShape(t, ResetFilters(t)) && OnlyCleared(t.headers, ResetFilters(t).headers)
    ensures ResetFilters(t).headers[y].checked <==>
              t.headers[y].checked && !Active(t, y) && !RunFromForks(t.headers, t.forks, y)
  {
    var hs1 := ClearWalk(t.headers, t.tip.hash);
    ClearWalkClears(t.headers, t.tip.hash, y);
    ClearForksClears(hs1, t.forks, y);
    StoredWalkIsDescent(t, t.tip.hash, y);
    if !Active(t, y) {
      forall i | 0 <= i < |t.forks|
        ensures CheckedRun(hs1, t.forks[i].hash, y) <==> CheckedRun(t.headers, t.forks[i].hash, y)
      {
        RunOffActive(t, t.forks[i].hash, y);
      }
    }
  }
}
