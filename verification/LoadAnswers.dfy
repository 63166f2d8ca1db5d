/** Where a load starts, and what it takes from the table. */
module LoadAnswers {
  import opened Commons
  import opened Hashes
  import opened Graph
  import opened GraphFilters
  import opened HeaderStores
  import opened ChainState
  import opened ChainLoad

  /** The lower of the last adjustment and of seven blocks back, if it is stored, is where the tree
      is rooted; else the higher, if that is stored; else the checkpoint. */
  lemma BaseIs(c: Chain, epoch: nat)
    requires epoch % c.tree.net.interval == 0 && epoch <= c.tree.tip.height < epoch + c.tree.net.interval
    ensures var (net, table, scan) := (c.tree.net, c.store.table, c.tree.tip.height);
            var back: nat := if scan < 7 then 0 else scan - 7;
            var low, high := if epoch <= back then epoch else back, if epoch <= back then back else epoch;
            BaseTree(c) == if low in table then FromHeader(net, low, table[low])
                           else if high in table then FromHeader(net, high, table[high])
                           else c.tree
  {
    OneEpoch(c.tree.net.interval, c.tree.tip.height, epoch);
  }

  lemma OneEpoch(n: Pos, x: nat, epoch: nat)
    requires epoch % n == 0 && epoch <= x < epoch + n
    ensures x / n * n == epoch
  {
    Quotient(epoch, n, epoch / n);
    Quotient(x, n, epoch / n);
  }

  /** So a load that succeeds starts right below that header, or at the checkpoint. */
  lemma LoadStartsAt(c: Chain, hi: nat, epoch: nat)
    requires c.tree == FromTip(c.tree.net, c.tree.tip) && LoadHeaders(c, hi).1 == None
    requires epoch % c.tree.net.interval == 0 && epoch <= c.tree.tip.height < epoch + c.tree.net.interval
    ensures var (net, table, scan) := (c.tree.net, c.store.table, c.tree.tip.height);
            var back: nat := if scan < 7 then 0 else scan - 7;
            var low, high := if epoch <= back then epoch else back, if epoch <= back then back else epoch;
            LoadHeaders(c, hi).0.tree.origin == if low in table then Origin(table[low].prev, low - 1)
                                                else if high in table then Origin(table[high].prev, high - 1)
                                                else Origin(c.tree.tip.hash, scan)
  {
    BaseIs(c, epoch);
    LoadLeavesBaseUnindexed(c, hi);
  }

  // ---------- Rows and heights ----------

  /** Every header but `b` is the row at its height. */
  ghost predicate OnlyRows(t: Tree, table: map<nat, Header>, b: Hash) {
    forall x | x in t.headers && x != b :: t.headers[x].height in table && table[t.headers[x].height].BlockHash() == x
  }

  lemma RowAtItsHeight(t: Tree, cps: seq<Checkpoint>, table: map<nat, Header>, k: nat, last: Option<Hash>, b: Hash)
    requires k in table && Linear(t, last) && (last.Some? ==> table[k].prev == last.value)
    requires RowLoaded(t, cps, k, table[k]).error == None && OnlyRows(t, table, b)
    ensures OnlyRows(RowLoaded(t, cps, k, table[k]).tree, table, b)
  {
    WalkStarts(t);
    if table[k].prev == t.tip.hash {
      ExtendsStraight(t, table[k]);
    } else {
      assert table[k].BlockHash() in t.headers;
    }
  }

  lemma {:induction false} RowsAtTheirHeights(
      t: Tree, cps: seq<Checkpoint>, table: map<nat, Header>, from: nat, k: nat, hi: nat, last: Option<nat>, b: Hash)
    requires from <= k && LinkedBetween(table, from, hi) && LastBelow(table, from, k, last)
    requires Linear(t, if last.Some? then Some(table[last.value].BlockHash()) else None) && OnlyRows(t, table, b)
    requires LoadRows(t, cps, table, k, hi).error == None
    ensures OnlyRows(LoadRows(t, cps, table, k, hi).tree, table, b)
    decreases hi - k
  {
    if k < hi {
      LinkStep(table, from, k, last);
      if k in table {
        var l := RowLoaded(t, cps, k, table[k]);
        var below := if last.Some? then Some(table[last.value].BlockHash()) else None;
        assert last.Some? ==> Follows(table, last.value, k);
        RowKeepsLinear(t, cps, k, table[k], below);
        RowAtItsHeight(t, cps, table, k, below, b);
        RowsAtTheirHeights(l.tree, l.checkpoints, table, from, k + 1, hi, Some(k), b);
      } else {
        RowsAtTheirHeights(t, cps, table, from, k + 1, hi, last, b);
      }
    }
  }

  /** Whatever the table holds, after a load that succeeds every header above the one loaded onto is
      the row stored at its height. */
  lemma LoadedAtRowHeights(c: Chain, hi: nat)
    requires c.tree == FromTip(c.tree.net, c.tree.tip) && LoadHeaders(c, hi).1 == None
    ensures OnlyRows(LoadHeaders(c, hi).0.tree, c.store.table, BaseTree(c).tip.hash)
  {
    BaseIsStraight(c);
    var base := BaseTree(c);
    var from := base.tip.height + 1;
    assert OnlyRows(base, c.store.table, base.tip.hash);
    RowsAtTheirHeights(base, c.checkpoints, c.store.table, from, from, hi, None, base.tip.hash);
    LoadOntoAssumes(c, base, hi, LoadRows(base, c.checkpoints, c.store.table, from, hi));
  }

  /** The headers assumed checked, and so noted in the history, are those up to the scan height. */
  lemma AssumedAreScanned(c: Chain, hi: nat)
    requires c.tree == FromTip(c.tree.net, c.tree.tip) && LoadHeaders(c, hi).1 == None
    ensures var (c', scan) := (LoadHeaders(c, hi).0, c.tree.tip.height);
            && |c'.log| == |c.log| + 1 && c'.log[..|c.log|] == c.log && c'.log[|c.log|].Assumed?
            && forall x :: x in c'.log[|c.log|].assumed <==> x in c'.tree.headers && c'.tree.headers[x].height <= scan
  {
    var base := BaseTree(c);
    var from := base.tip.height + 1;
    BaseIsStraight(c);
    RowsKeepLinear(base, c.checkpoints, c.store.table, from, from, hi, None);
    var l := LoadRows(base, c.checkpoints, c.store.table, from, hi);
    LoadOntoAssumes(c, base, hi, l);
    AssumedFlags(l.tree, c.tree.tip.height);
    assert LoadHeaders(c, hi).0.log == c.log + [Assumed(AssumedHashes(l.tree, c.tree.tip.height))];
  }

  // ---------- Checkpoints ----------

  /** The checkpoints that are left when rows pass them one by one. */
  ghost function RowsPass(cps: seq<Checkpoint>, table: map<nat, Header>, k: nat, hi: nat): seq<Checkpoint>
    decreases hi - k
  {
    if hi <= k then cps
    else RowsPass(if k in table && cps != [] && table[k].BlockHash() == cps[0].hash then cps[1..] else cps, table, k + 1, hi)
  }

  ghost predicate IsRowOf(table: map<nat, Header>, x: Hash, lo: nat, hi: nat) {
    exists j :: lo <= j < hi && j in table && table[j].BlockHash() == x
  }

  /** The first `n` checkpoints are passed: they are rows from `low` up, the last of them right below
      `p`, and the one that is due next is no row from `p` up. */
  ghost predicate PassInOrder(
      cps: seq<Checkpoint>, left: seq<Checkpoint>, table: map<nat, Header>, low: nat, hi: nat, n: nat, p: nat)
  {
    && n <= |cps| && left == cps[n..] && low <= p <= hi
    && (forall i | 0 <= i < n :: IsRowOf(table, cps[i].hash, low, hi))
    && (if n == 0 then p == low else low < p && IsRowOf(table, cps[n - 1].hash, p - 1, p))
    && (n < |cps| ==> !IsRowOf(table, cps[n].hash, p, hi))
  }

  lemma {:induction false} PassedAreRows(cps: seq<Checkpoint>, table: map<nat, Header>, k: nat, hi: nat) returns (n: nat, p: nat)
    requires k <= hi
    ensures PassInOrder(cps, RowsPass(cps, table, k, hi), table, k, hi, n, p)
    decreases hi - k
  {
    n, p := 0, k;
    if k < hi {
      if k in table && cps != [] && table[k].BlockHash() == cps[0].hash {
        n, p := PassedAreRows(cps[1..], table, k + 1, hi);
        assert forall i | 0 <= i < n :: IsRowOf(table, cps[1..][i].hash, k + 1, hi);
        forall i | 0 <= i < n + 1 ensures IsRowOf(table, cps[i].hash, k, hi) {
          if 0 < i {
            assert cps[i] == cps[1..][i - 1];
          }
        }
        n := n + 1;
      } else {
        n, p := PassedAreRows(cps, table, k + 1, hi);
        p := if n == 0 then k else p;
      }
    }
  }

  lemma MetRowLoaded(base: Tree, cps: seq<Checkpoint>, table: map<nat, Header>, k: nat, top: nat)
    requires Loadable(base, table, top) && k <= top && RowsBelow(base, table, k) && RowsBelow(base, table, k + 1)
    requires MetBelow(base, table, k) && MeetsDemand(base, table, k)
    ensures RowLoaded(Stacked(base, table, k), cps, k, table[k])
         == Loaded(Stacked(base, table, k + 1),
                   if cps != [] && table[k].BlockHash() == cps[0].hash then cps[1..] else cps, None)
  {
    StackOneMore(base, table, k, top);
    assert Stacks(base, table, k);
  }

  lemma {:induction false} MetRowsPass(base: Tree, cps: seq<Checkpoint>, table: map<nat, Header>, k: nat, top: nat, hi: nat)
    requires Loadable(base, table, top) && k <= top + 1 <= hi && RowsBelow(base, table, k) && MetBelow(base, table, k)
    requires RowsMeet(base, table, top)
    ensures LoadRows(Stacked(base, table, k), cps, table, k, hi).checkpoints == RowsPass(cps, table, k, hi)
    decreases hi - k
  {
    if k <= top {
      assert RowsBelow(base, table, k + 1) && MeetsDemand(base, table, k);
      var left := if cps != [] && table[k].BlockHash() == cps[0].hash then cps[1..] else cps;
      MetRowLoaded(base, cps, table, k, top);
      MetRowsPass(base, left, table, k + 1, top, hi);
    } else {
      NothingToLoad(Stacked(base, table, k), cps, table, k, hi);
      NothingToPass(cps, table, k, hi);
    }
  }

  lemma {:induction false} NothingToPass(cps: seq<Checkpoint>, table: map<nat, Header>, k: nat, hi: nat)
    requires forall j | j in table :: j < k
    ensures RowsPass(cps, table, k, hi) == cps
    decreases hi - k
  {
    if k < hi {
      NothingToPass(cps, table, k + 1, hi);
    }
  }

  lemma LoadedCheckpoints(c: Chain, base: Tree, top: nat, hi: nat)
    requires Loadable(base, c.store.table, top) && top < hi && RowsMeet(base, c.store.table, top)
    ensures LoadOnto(c, base, hi).0.checkpoints == RowsPass(c.checkpoints, c.store.table, base.tip.height + 1, hi)
  {
    ContinuingRowsLink(base, c.store.table, top, hi);
    MetRowsPass(base, c.checkpoints, c.store.table, base.tip.height + 1, top, hi);
    LoadOntoCheckpoints(c, base, hi);
  }

  /** A load that gets to the top passes checkpoints in their order: those passed are rows above the
      base, and the next one due is no row above the last of them. */
  lemma LoadPasses(c: Chain, top: nat, hi: nat) returns (n: nat, p: nat)
    requires c.tree == FromTip(c.tree.net, c.tree.tip) && top < hi
    requires NothingAbove(c.store.table, top) && BaseTree(c).tip.height <= top
    requires RowsLink(BaseTree(c), c.store.table, top) && RowsMeet(BaseTree(c), c.store.table, top)
    ensures PassInOrder(c.checkpoints, LoadHeaders(c, hi).0.checkpoints, c.store.table, BaseTree(c).tip.height + 1, hi, n, p)
  {
    BaseIsStraight(c);
    LoadedCheckpoints(c, BaseTree(c), top, hi);
    n, p := PassedAreRows(c.checkpoints, c.store.table, BaseTree(c).tip.height + 1, hi);
  }

  lemma LoadOntoCheckpoints(c: Chain, base: Tree, hi: nat)
    requires LinkedBetween(c.store.table, base.tip.height + 1, hi)
    ensures LoadOnto(c, base, hi).0.checkpoints
         == LoadRows(base, c.checkpoints, c.store.table, base.tip.height + 1, hi).checkpoints
  {
  }
}
