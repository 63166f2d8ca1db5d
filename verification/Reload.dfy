/** What a run of the node wrote, the next start of the node loads again. */
module Reload {
  import opened Hashes
  import opened Graph
  import opened GraphIndex
  import opened GraphRetarget
  import opened GraphAudit
  import opened ChainState
  import opened ChainPersistence
  import opened ChainLoad
  import opened NodeState
  import opened NodeRuns
  import opened TableRuns
  import HeaderStores

  /** The base of the load is on the active chain of `t`, or right below it. */
  ghost predicate BaseOnChain(base: Tree, t: Tree) {
    && Valid(t) && t.headers != map[] && base.tip.height <= t.tip.height
    && if base.tip.height == t.origin.height then base.tip.hash == t.origin.hash
       else t.origin.height < base.tip.height && base.tip.hash == AtHeight(t, base.tip.height)
  }

  lemma ChainRow(t: Tree, base: Tree, table: map<nat, Header>, j: nat)
    requires BaseOnChain(base, t) && TableIsChain(table, t) && base.tip.height < j <= t.tip.height
    ensures j in table && table[j].BlockHash() == AtHeight(t, j)
    ensures table[j].prev == if j == base.tip.height + 1 then base.tip.hash else AtHeight(t, j - 1)
  {
    var x := AtHeight(t, j);
    assert Placed(t, x);
    if t.origin.height + 1 < j {
      RootByDepth(t, x);
      var p := AtHeight(t, j - 1);
      DescendsTransitive(t.tip.hash, x, x.header.prev);
      assert Placed(t, x.header.prev);
      ActiveIsAtHeight(t, x.header.prev);
    } else {
      RootByDepth(t, x);
    }
  }

  lemma ChainRowsLink(t: Tree, base: Tree, table: map<nat, Header>)
    requires BaseOnChain(base, t) && TableIsChain(table, t)
    ensures RowsLink(base, table, t.tip.height) && NothingAbove(table, t.tip.height)
  {
    forall j: nat | base.tip.height < j <= t.tip.height ensures j in table {
      ChainRow(t, base, table, j);
    }
    assert base.tip.height < t.tip.height ==> RowsBelow(base, table, t.tip.height + 1);
    forall j: nat | base.tip.height < j <= t.tip.height
      ensures RowsBelow(base, table, j) && table[j].prev == HashBelow(base, table, j)
    {
      assert RowsBelow(base, table, j);
      ChainRow(t, base, table, j);
      if base.tip.height + 1 < j {
        ChainRow(t, base, table, j - 1);
      }
    }
  }

  /** No height above the one and up to the other is held to a retarget. */
  ghost predicate Unadjusted(net: Network, low: int, high: int) {
    !Retargets(net) || forall k: nat | low < k <= high :: !IsAdjustment(net, k)
  }

  /** Without retargets each row is asked for what the base asks for. */
  lemma {:induction false} SteadyDemand(base: Tree, table: map<nat, Header>, j: nat)
    requires Unadjusted(base.net, base.tip.height, j) && base.tip.height <= j && (base.tip.height < j ==> RowsBelow(base, table, j))
    ensures RowDemand(base, table, j) == base.tip.nextWork
    decreases j
  {
    if base.tip.height < j {
      assert base.tip.height < j - 1 ==> RowsBelow(base, table, j - 1);
      SteadyDemand(base, table, j - 1);
    }
  }

  /** If the base asks for bits, then all active headers above it have them. */
  ghost predicate BitsHold(base: Tree, t: Tree) {
    base.tip.nextWork.Some? ==>
      forall x | Active(t, x) && base.tip.height < t.headers[x].height :: t.headers[x].header.bits == base.tip.nextWork.value
  }

  lemma ChainRowMeetsIff(t: Tree, base: Tree, table: map<nat, Header>, j: nat)
    requires BaseOnChain(base, t) && TableIsChain(table, t) && base.net == t.net
    requires Unadjusted(t.net, base.tip.height, t.tip.height)
    requires RowsBelow(base, table, j) && base.tip.height < j <= t.tip.height
    ensures j in table
    ensures MeetsDemand(base, table, j)
       <==> !BadBits(base.tip.nextWork, t.headers[AtHeight(t, j)].header)
  {
    SteadyDemand(base, table, j);
    ChainRow(t, base, table, j);
    assert Placed(t, AtHeight(t, j));
  }

  lemma RowsMeetIff(t: Tree, base: Tree, table: map<nat, Header>)
    requires BaseOnChain(base, t) && TableIsChain(table, t) && base.net == t.net
    requires Unadjusted(t.net, base.tip.height, t.tip.height)
    requires RowsLink(base, table, t.tip.height)
    ensures RowsMeet(base, table, t.tip.height) <==> BitsHold(base, t)
  {
    if RowsMeet(base, table, t.tip.height) {
      forall x | Active(t, x) && base.tip.height < t.headers[x].height
        ensures !BadBits(base.tip.nextWork, t.headers[x].header)
      {
        ActiveIsAtHeight(t, x);
        assert MeetsDemand(base, table, t.headers[x].height);
        ChainRowMeetsIff(t, base, table, t.headers[x].height);
      }
    }
    if BitsHold(base, t) {
      forall j: nat | base.tip.height < j <= t.tip.height ensures MeetsDemand(base, table, j) {
        assert RowsBelow(base, table, j);
        ChainRowMeetsIff(t, base, table, j);
      }
    }
  }

  /** A client that is started on a base on the active chain of `t`, with no retarget above it. */
  ghost predicate Restarts(c: Chain, t: Tree) {
    && c.tree == FromTip(t.net, c.tree.tip) && BaseOnChain(BaseTree(c), t)
    && Unadjusted(t.net, BaseTree(c).tip.height, t.tip.height)
  }

  ghost predicate EndsAtTip(c: Chain, error: Option<LoadError>, tip: Tip) {
    error == None && c.tree.tip.height == tip.height && c.tree.tip.hash == tip.hash
  }

  lemma ReloadTableIff(t: Tree, c: Chain, hi: nat)
    requires TableIsChain(c.store.table, t) && Restarts(c, t) && t.tip.height < hi
    ensures EndsAtTip(LoadHeaders(c, hi).0, LoadHeaders(c, hi).1, t.tip) <==> BitsHold(BaseTree(c), t)
  {
    var base, table := BaseTree(c), c.store.table;
    BaseIsStraight(c);
    ChainRowsLink(t, base, table);
    RowsMeetIff(t, base, table);
    RestartRoundTrip(c, t.tip.height, hi);
    ActiveIsAtHeight(t, t.tip.hash);
    if base.tip.height < t.tip.height {
      ChainRow(t, base, table, t.tip.height);
    }
  }

  lemma ReloadCleanIff(s: HeaderStores.Store, t: Tree, c: Chain, hi: nat)
    requires TableIsChain(HeaderStores.Pending(s), t) && s.accepted == map[] && s.disconnected == {}
    requires c.store.table == s.table && Restarts(c, t) && t.tip.height < hi
    ensures EndsAtTip(LoadHeaders(c, hi).0, LoadHeaders(c, hi).1, t.tip) <==> BitsHold(BaseTree(c), t)
  {
    assert HeaderStores.Pending(s) == c.store.table;
    ReloadTableIff(t, c, hi);
  }

  /** Where no height above the base is held to a retarget, reloading the table of a run that ends
      with an exact index, onto a base on its active chain, ends at the tip of the run if and only
      if the base asks for no bits, or for those that all active headers above it have. A bare
      checkpoint asks for none. */
  lemma ReloadReachesTip(n: Client, inputs: seq<Input>, c: Chain, hi: nat)
    requires Books(n) && Followed(n.chain.store, n.chain.tree) && LosslessRun(n, inputs)
    requires Exact(RunAll(n, inputs).chain.tree)
    requires var s := RunAll(n, inputs).chain.store; s.accepted == map[] && s.disconnected == {} && c.store.table == s.table
    requires Restarts(c, RunAll(n, inputs).chain.tree) && RunAll(n, inputs).chain.tree.tip.height < hi
    ensures EndsAtTip(LoadHeaders(c, hi).0, LoadHeaders(c, hi).1, RunAll(n, inputs).chain.tree.tip)
       <==> BitsHold(BaseTree(c), RunAll(n, inputs).chain.tree)
  {
    RunTableIsChain(n, inputs);
    ReloadCleanIff(RunAll(n, inputs).chain.store, RunAll(n, inputs).chain.tree, c, hi);
  }

  // ---------- On a retargeting network ----------

  /** The base asks for nothing, or for the bits of the active header at its height. */
  ghost predicate AsksSame(base: Tree, t: Tree)
    requires Valid(t) && t.headers != map[] && t.origin.height < base.tip.height <= t.tip.height
  {
    base.tip.nextWork.Some? ==> base.tip.nextWork.value == t.headers[AtHeight(t, base.tip.height)].header.bits
  }

  /** The base is on an active chain that keeps the rule from a lower height on. */
  ghost predicate AuditedBase(base: Tree, t: Tree, first: nat) {
    && AuditedActive(t, first) && BaseOnChain(base, t) && base.net == t.net && first <= base.tip.height
    && t.origin.height < base.tip.height && AsksSame(base, t)
  }

  /** The rows from the base to `j` are those of the active chain of `t`. */
  ghost predicate ChainAbove(base: Tree, t: Tree, table: map<nat, Header>, j: nat) {
    && BaseOnChain(base, t) && Exact(t) && TableIsChain(table, t) && base.net == t.net && t.origin.height < base.tip.height
    && base.tip.height < j <= t.tip.height && RowsBelow(base, table, j + 1)
  }

  /** The rows one interval back and one back give the retarget of the header's own ancestors. */
  lemma RowsGiveOwn(t: Tree, base: Tree, table: map<nat, Header>, j: nat)
    requires BaseOnChain(base, t) && TableIsChain(table, t) && t.origin.height < base.tip.height
    requires base.tip.height + t.net.interval < j <= t.tip.height
    ensures j - t.net.interval in table && j - 1 in table && t.net.interval <= Depth(AtHeight(t, j - 1))
    ensures OwnRetarget(t.net, AtHeight(t, j - 1)) == t.net.retarget(table[j - t.net.interval], table[j - 1])
  {
    var p, first := AtHeight(t, j - 1), AtHeight(t, j - t.net.interval);
    ChainRow(t, base, table, j - 1);
    ChainRow(t, base, table, j - t.net.interval);
    assert Placed(t, p) && Placed(t, first);
    var back := Back(p, t.net.interval - 1);
    BackDescends(p, t.net.interval - 1);
    DescendsTransitive(t.tip.hash, p, back);
    AncestorsAreOrdered(t.tip.hash, first, back);
  }

  /** The row has the bits of its own rule: those of the row below, or at an adjustment the
      retarget of the rows one interval and one row back, if both are above the base. */
  ghost predicate RowIsRight(base: Tree, table: map<nat, Header>, j: nat)
    requires base.tip.height < j && RowsBelow(base, table, j + 1)
  {
    var net := base.net;
    if IsAdjustment(net, j) then
      base.tip.height + net.interval < j ==> table[j].bits == net.retarget(table[j - net.interval], table[j - 1])
    else if j == base.tip.height + 1 then !BadBits(base.tip.nextWork, table[j])
    else table[j].bits == table[j - 1].bits
  }

  /** Rows that are right are asked for nothing, or for the bits that they have. */
  lemma {:induction false} RightRowsMeet(base: Tree, table: map<nat, Header>, j: nat)
    requires Retargets(base.net) && base.tip.height < j && RowsBelow(base, table, j + 1)
    requires forall i: nat | base.tip.height < i <= j :: RowIsRight(base, table, i)
    ensures MeetsDemand(base, table, j)
    decreases j
  {
    assert RowIsRight(base, table, j);
    if base.tip.height + 1 < j && !IsAdjustment(base.net, j) {
      assert RowsBelow(base, table, j);
      RightRowsMeet(base, table, j - 1);
    }
  }

  lemma AdjustedRowIsRight(t: Tree, base: Tree, table: map<nat, Header>, j: nat)
    requires ChainAbove(base, t, table, j) && IsAdjustment(base.net, j) && OwnRule(base.net, AtHeight(t, j), j)
    ensures RowIsRight(base, table, j)
  {
    ChainRow(t, base, table, j);
    if base.tip.height + base.net.interval < j {
      RowsGiveOwn(t, base, table, j);
    }
  }

  lemma SteadyRowIsRight(t: Tree, base: Tree, table: map<nat, Header>, j: nat)
    requires ChainAbove(base, t, table, j) && !IsAdjustment(base.net, j) && OwnRule(base.net, AtHeight(t, j), j)
    requires AsksSame(base, t)
    ensures RowIsRight(base, table, j)
  {
    ChainRow(t, base, table, j);
    if base.tip.height + 1 < j {
      ChainRow(t, base, table, j - 1);
    } else {
      assert Placed(t, AtHeight(t, base.tip.height));
    }
  }

  lemma AuditedRowsMeet(t: Tree, base: Tree, table: map<nat, Header>, first: nat, j: nat)
    requires AuditedBase(base, t, first) && TableIsChain(table, t) && base.tip.height < j <= t.tip.height
    requires RowsBelow(base, table, j + 1)
    ensures MeetsDemand(base, table, j)
  {
    forall i: nat | base.tip.height < i <= j ensures RowIsRight(base, table, i) {
      assert RowsBelow(base, table, i + 1) && KeepsOwn(t, AtHeight(t, i), first);
      if IsAdjustment(t.net, i) {
        AdjustedRowIsRight(t, base, table, i);
      } else {
        SteadyRowIsRight(t, base, table, i);
      }
    }
    RightRowsMeet(base, table, j);
  }

  /** A client that is started on a base at or above `first` on the active chain of `t`. */
  ghost predicate RestartsAudited(c: Chain, t: Tree, first: nat) {
    && AuditedActive(t, first) && c.tree == FromTip(t.net, c.tree.tip) && c.tree.tip.nextWork == None
    && BaseOnChain(BaseTree(c), t) && first <= BaseTree(c).tip.height
  }

  /** On a retargeting network, a chain that keeps the rule from an adjustment on is loaded again
      up to its tip, onto any base at or above that adjustment. */
  lemma AuditedReloads(t: Tree, c: Chain, hi: nat, first: nat)
    requires TableIsChain(c.store.table, t) && RestartsAudited(c, t, first) && t.tip.height < hi
    ensures EndsAtTip(LoadHeaders(c, hi).0, LoadHeaders(c, hi).1, t.tip)
  {
    var base, table := BaseTree(c), c.store.table;
    BaseIsStraight(c);
    ChainRowsLink(t, base, table);
    ActiveIsAtHeight(t, t.tip.hash);
    assert AuditedBase(base, t, first);
    forall j: nat | base.tip.height < j <= t.tip.height ensures MeetsDemand(base, table, j) {
      AuditedRowsMeet(t, base, table, first, j);
    }
    RestartRoundTrip(c, t.tip.height, hi);
    if base.tip.height < t.tip.height {
      ChainRow(t, base, table, t.tip.height);
    }
  }

  /** So the table of a run that loses no row and ends on such a chain is loaded up to the tip. */
  lemma AuditedRunReloads(n: Client, inputs: seq<Input>, c: Chain, hi: nat, first: nat)
    requires Books(n) && Followed(n.chain.store, n.chain.tree) && LosslessRun(n, inputs)
    requires var s := RunAll(n, inputs).chain.store; s.accepted == map[] && s.disconnected == {} && c.store.table == s.table
    requires RestartsAudited(c, RunAll(n, inputs).chain.tree, first) && RunAll(n, inputs).chain.tree.tip.height < hi
    ensures EndsAtTip(LoadHeaders(c, hi).0, LoadHeaders(c, hi).1, RunAll(n, inputs).chain.tree.tip)
  {
    RunTableIsChain(n, inputs);
    AuditedCleanReloads(RunAll(n, inputs).chain.store, RunAll(n, inputs).chain.tree, c, hi, first);
  }

  lemma AuditedCleanReloads(s: HeaderStores.Store, t: Tree, c: Chain, hi: nat, first: nat)
    requires TableIsChain(HeaderStores.Pending(s), t) && s.accepted == map[] && s.disconnected == {}
    requires c.store.table == s.table && RestartsAudited(c, t, first) && t.tip.height < hi
    ensures EndsAtTip(LoadHeaders(c, hi).0, LoadHeaders(c, hi).1, t.tip)
  {
    assert HeaderStores.Pending(s) == c.store.table;
    AuditedReloads(t, c, hi, first);
  }
}
