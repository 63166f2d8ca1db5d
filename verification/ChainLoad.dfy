/** Loading the stored chain when the client starts again. */
module ChainLoad {
  import opened Commons
  import opened Hashes
  import opened Graph
  import opened GraphInvariant
  import opened GraphIndex
  import opened GraphFilters
  import opened ChainState
  import opened HeaderStores
  import opened ChainPersistence

  datatype LoadError = DatabaseCorruption | HeadersDoNotLink | CannotLocateHistory

  function LastEpochStart(net: Network, height: nat): nat {
    height / net.interval * net.interval
  }

  function Min(a: nat, b: nat): nat { if a <= b then a else b }

  function Max(a: nat, b: nat): nat { if a <= b then b else a }

  /** The tree to load into: rooted at the last adjustment or seven blocks back, whichever is
      lower and stored, or the one that is higher and stored, or the bare checkpoint. */
  ghost function BaseTree(c: Chain): Tree {
    var table, net, scan := c.store.table, c.tree.net, c.tree.tip.height;
    var adjustment, reorg := LastEpochStart(net, scan), SaturatingSub(scan, REORG_LOOKBACK);
    var low, high := Min(adjustment, reorg), Max(adjustment, reorg);
    if low in table then FromHeader(net, low, table[low])
    else if high in table then FromHeader(net, high, table[high])
    else c.tree
  }

  datatype Loaded = Loaded(tree: Tree, checkpoints: seq<Checkpoint>, error: Option<LoadError>)

  ghost function LoadRows(t: Tree, cps: seq<Checkpoint>, table: map<nat, Header>, k: nat, hi: nat): Loaded
    decreases hi - k
  {
    if hi <= k then Loaded(t, cps, None)
    else if k !in table then LoadRows(t, cps, table, k + 1, hi)
    else
      var l := RowLoaded(t, cps, k, table[k]);
      if l.error.Some? then l else LoadRows(l.tree, l.checkpoints, table, k + 1, hi)
  }

  /** A row must land at its stored height, and its parent must be known. */
  ghost function RowLoaded(t: Tree, cps: seq<Checkpoint>, k: nat, h: Header): Loaded {
    var (t', changes) := Accept(t, h);
    match changes
    case Accepted(at) =>
      if k != at.height then Loaded(t', cps, Some(HeadersDoNotLink))
      else Loaded(t', if cps != [] && at.header.BlockHash() == cps[0].hash then cps[1..] else cps, None)
    case Rejected(reason) => Loaded(t', cps, if reason.UnknownPrevHash? then Some(CannotLocateHistory) else None)
    case _ => Loaded(t', cps, None)
  }

  ghost function AssumedHashes(t: Tree, height: nat): set<Hash> {
    set x | x in t.headers && Active(t, x) && t.headers[x].height <= height
  }

  /** The rows above the tip, unless two stored neighbours do not link. */
  ghost function RowsLoaded(c: Chain, hi: nat): Loaded {
    if !LinkedBetween(c.store.table, c.tree.tip.height + 1, hi) then Loaded(c.tree, c.checkpoints, Some(DatabaseCorruption))
    else LoadRows(c.tree, c.checkpoints, c.store.table, c.tree.tip.height + 1, hi)
  }

  ghost function LoadOnto(c: Chain, base: Tree, hi: nat): (Chain, Option<LoadError>) {
    var l, scan := RowsLoaded(c.(tree := base), hi), c.tree.tip.height;
    var c' := c.(tree := l.tree, checkpoints := l.checkpoints);
    if l.error.Some? then (c', l.error)
    else (c'.(tree := AssumeChecked(l.tree, scan), log := c.log + [Assumed(AssumedHashes(l.tree, scan))]), None)
  }

  /** `hi` is above every stored height. */
  ghost function LoadHeaders(c: Chain, hi: nat): (Chain, Option<LoadError>) {
    LoadOnto(c, BaseTree(c), hi)
  }

  // ---------- Restarting from a good table ----------

  /** There is a row for each height above the base and below `k`. */
  ghost predicate RowsBelow(base: Tree, table: map<nat, Header>, k: nat) {
    base.tip.height < k && forall i: nat | base.tip.height < i < k :: i in table
  }

  /** The hash that a row at `k` stands on: that of the row below, or of the base. */
  ghost function HashBelow(base: Tree, table: map<nat, Header>, k: nat): Hash
    requires RowsBelow(base, table, k)
  {
    if k == base.tip.height + 1 then base.tip.hash else table[k - 1].BlockHash()
  }

  /** The rows above the base go on from its tip, one by one, up to `top`. */
  ghost predicate RowsLink(base: Tree, table: map<nat, Header>, top: nat) {
    && (base.tip.height < top ==> RowsBelow(base, table, top + 1))
    && (forall j: nat {:trigger HashBelow(base, table, j)} | base.tip.height < j <= top ::
          table[j].prev == HashBelow(base, table, j))
  }

  /** The bits demanded of the row at `j`: at an adjustment the retarget of the rows one interval
      and one row back, if both are above the base, and nothing otherwise; elsewhere what was
      demanded of the row before. */
  ghost function RowDemand(base: Tree, table: map<nat, Header>, j: nat): Option<Bits>
    requires base.tip.height < j ==> RowsBelow(base, table, j)
    decreases j
  {
    var interval := base.net.interval as int;
    if j <= base.tip.height then base.tip.nextWork
    else if Retargets(base.net) && IsAdjustment(base.net, j) then
      if base.tip.height + interval < j then Some(base.net.retarget(table[j - interval], table[j - 1])) else None
    else RowDemand(base, table, j - 1)
  }

  ghost predicate MeetsDemand(base: Tree, table: map<nat, Header>, j: nat)
    requires RowsBelow(base, table, j) && j in table
  {
    !BadBits(RowDemand(base, table, j), table[j])
  }

  ghost predicate RowsMeet(base: Tree, table: map<nat, Header>, top: nat)
    requires RowsLink(base, table, top)
  {
    forall j: nat | base.tip.height < j <= top :: MeetsDemand(base, table, j)
  }

  ghost predicate MetBelow(base: Tree, table: map<nat, Header>, k: nat)
    requires RowsBelow(base, table, k)
  {
    forall j: nat | base.tip.height < j < k :: MeetsDemand(base, table, j)
  }

  /** The rows above the base link, and each has the bits that are demanded of it. */
  ghost predicate RowsContinue(base: Tree, table: map<nat, Header>, top: nat) {
    RowsLink(base, table, top) && RowsMeet(base, table, top)
  }

  ghost predicate NothingAbove(table: map<nat, Header>, top: nat) {
    forall j | j in table :: j <= top
  }

  /** A tree without forks or flags. */
  ghost predicate Straight(t: Tree) {
    && Valid(t) && Exact(t)
    && (forall x | x in t.headers :: Active(t, x) && !t.headers[x].checked)
  }

  /** A header on the tip keeps the chain straight. */
  lemma ExtendsStraight(t: Tree, h: Header)
    requires Straight(t) && h.prev == t.tip.hash
    ensures Accept(t, h) == ExtendTip(t, h) && Straight(Accept(t, h).0)
    ensures forall x | x in t.headers :: x in Accept(t, h).0.headers && Accept(t, h).0.headers[x] == t.headers[x]
  {
    var t' := Accept(t, h).0;
    TipHasNoStoredChild(t, h);
    AcceptValid(t, h);
    ExtendTipExact(t, h);
    forall x | x in t'.headers ensures Active(t', x) && !t'.headers[x].checked {
      if x != h.BlockHash() {
        assert Active(t, x);
      }
    }
  }

  ghost predicate IsRow(t: Tree, table: map<nat, Header>, j: nat)
    requires j in table
  {
    var x := table[j].BlockHash();
    j in t.index && t.index[j] == x && x in t.headers && t.headers[x].header == table[j] && t.headers[x].height == j
  }

  /** The rows above the base and below `k` have been loaded onto it, and nothing else. */
  ghost predicate LoadedBelow(t: Tree, base: Tree, table: map<nat, Header>, k: nat) {
    && RowsBelow(base, table, k) && (base.tip.height < k - 1 ==> RowsBelow(base, table, k - 1))
    && Straight(t) && t.forks == [] && t.net == base.net && t.origin == base.origin
    && t.tip == Tip(HashBelow(base, table, k), k - 1, RowDemand(base, table, k - 1))
    && (forall j | j in t.index :: base.tip.height < j)
    && (forall j: nat | base.tip.height < j < k :: IsRow(t, table, j))
    && (forall x | x in base.headers :: x in t.headers && t.headers[x] == base.headers[x])
  }

  lemma RetargetOfRows(t: Tree, table: map<nat, Header>, first: nat, last: nat)
    requires first in table && last in table && IsRow(t, table, first) && IsRow(t, table, last)
    requires last + 1 == first + t.net.interval
    ensures ComputeNextWork(t, last + 1) == Some(t.net.retarget(table[first], table[last]))
  {
  }

  lemma NoRetarget(t: Tree, k: nat)
    requires k < t.net.interval || k - t.net.interval !in t.index
    ensures ComputeNextWork(t, k) == None
  {
  }

  /** The demand that the tree computes is the one that the table shows. */
  lemma DemandIsRowDemand(t: Tree, base: Tree, table: map<nat, Header>, k: nat)
    requires RowsBelow(base, table, k) && t.net == base.net
    requires base.tip.height < k - 1 ==> RowsBelow(base, table, k - 1)
    requires t.tip.nextWork == RowDemand(base, table, k - 1)
    requires forall j | j in t.index :: base.tip.height < j
    requires forall j: nat | base.tip.height < j < k :: IsRow(t, table, j)
    ensures NextWork(t, k, t.tip.nextWork) == RowDemand(base, table, k)
  {
    var interval := t.net.interval as int;
    if Retargets(t.net) && IsAdjustment(t.net, k) {
      if base.tip.height + interval < k {
        RetargetOfRows(t, table, k - interval, k - 1);
      } else {
        NoRetarget(t, k);
      }
    }
  }

  lemma RowStays(t: Tree, t': Tree, table: map<nat, Header>, j: nat)
    requires j in table && IsRow(t, table, j) && j in t'.index && t'.index[j] == t.index[j]
    requires t.index[j] in t'.headers && t'.headers[t.index[j]] == t.headers[t.index[j]]
    ensures IsRow(t', table, j)
  {
  }

  lemma AcceptRow(t: Tree, base: Tree, table: map<nat, Header>, k: nat)
    requires LoadedBelow(t, base, table, k) && k in table && table[k].prev == HashBelow(base, table, k)
    requires MeetsDemand(base, table, k)
    ensures Accept(t, table[k]).1 == Accepted(Indexed(k, table[k])) && LoadedBelow(Accept(t, table[k]).0, base, table, k + 1)
  {
    DemandIsRowDemand(t, base, table, k);
    ExtendsStraight(t, table[k]);
    var t' := Accept(t, table[k]).0;
    assert t'.index == t.index[k := table[k].BlockHash()] && IsRow(t', table, k);
    forall j: nat | base.tip.height < j < k ensures IsRow(t', table, j) {
      RowStays(t, t', table, j);
    }
  }

  ghost predicate AtTop(l: Loaded, top: nat) {
    l.error == None && l.tree.tip.height == top
  }

  /** The load got to the top, with all rows on the base and nothing else. */
  ghost predicate Complete(l: Loaded, base: Tree, table: map<nat, Header>, top: nat) {
    AtTop(l, top) && LoadedBelow(l.tree, base, table, top + 1)
  }

  /** The base with the rows below `k` put on it, one by one. */
  ghost function Stacked(base: Tree, table: map<nat, Header>, k: nat): Tree
    requires RowsBelow(base, table, k)
    decreases k
  {
    if k == base.tip.height + 1 then base else ExtendTip(Stacked(base, table, k - 1), table[k - 1]).0
  }

  lemma StackedStep(base: Tree, table: map<nat, Header>, k: nat)
    requires RowsBelow(base, table, k) && RowsBelow(base, table, k + 1) && table[k].prev == HashBelow(base, table, k)
    requires LoadedBelow(Stacked(base, table, k), base, table, k) && MeetsDemand(base, table, k)
    ensures LoadedBelow(Stacked(base, table, k + 1), base, table, k + 1)
  {
    var t := Stacked(base, table, k);
    AcceptRow(t, base, table, k);
    ExtendsStraight(t, table[k]);
    assert Stacked(base, table, k + 1) == Accept(t, table[k]).0;
  }

  lemma {:induction false} StackedIsLoaded(base: Tree, table: map<nat, Header>, k: nat, top: nat)
    requires LoadedBelow(base, base, table, base.tip.height + 1) && RowsLink(base, table, top)
    requires k <= top + 1 && RowsBelow(base, table, k) && MetBelow(base, table, k)
    ensures LoadedBelow(Stacked(base, table, k), base, table, k)
    decreases k
  {
    if k == base.tip.height + 1 {
      assert Stacked(base, table, k) == base;
    } else {
      var j := k - 1;
      assert RowsBelow(base, table, j) && MeetsDemand(base, table, j);
      assert table[j].prev == HashBelow(base, table, j);
      StackedIsLoaded(base, table, j, top);
      StackedStep(base, table, j);
    }
  }

  /** The row is accepted at its stored height. */
  ghost predicate Stacks(base: Tree, table: map<nat, Header>, k: nat)
    requires RowsBelow(base, table, k) && RowsBelow(base, table, k + 1)
  {
    Accept(Stacked(base, table, k), table[k]) == (Stacked(base, table, k + 1), Accepted(Indexed(k, table[k])))
  }

  /** A row that meets its demand is accepted at its stored height. */
  lemma StackOneMore(base: Tree, table: map<nat, Header>, k: nat, top: nat)
    requires Loadable(base, table, top) && k <= top && RowsBelow(base, table, k) && RowsBelow(base, table, k + 1)
    requires MetBelow(base, table, k) && MeetsDemand(base, table, k)
    ensures Stacks(base, table, k)
  {
    BaseIsLoaded(base, table);
    StackedIsLoaded(base, table, k, top);
    assert table[k].prev == HashBelow(base, table, k);
    var t := Stacked(base, table, k);
    AcceptRow(t, base, table, k);
    ExtendsStraight(t, table[k]);
  }

  lemma LoadOneRow(t: Tree, t': Tree, cps: seq<Checkpoint>, table: map<nat, Header>, k: nat, hi: nat)
    returns (cps': seq<Checkpoint>)
    requires k < hi && k in table && Accept(t, table[k]) == (t', Accepted(Indexed(k, table[k])))
    ensures LoadRows(t, cps, table, k, hi) == LoadRows(t', cps', table, k + 1, hi)
  {
    cps' := RowLoaded(t, cps, k, table[k]).checkpoints;
  }

  /** As long as the rows are accepted, they are loaded one after the other. */
  lemma {:induction false} LoadsBelow(base: Tree, cps: seq<Checkpoint>, table: map<nat, Header>, k: nat, hi: nat)
    returns (cps': seq<Checkpoint>)
    requires k <= hi && RowsBelow(base, table, k)
    requires forall j: nat {:trigger Stacks(base, table, j)} | base.tip.height < j < k :: Stacks(base, table, j)
    ensures LoadRows(base, cps, table, base.tip.height + 1, hi)
         == LoadRows(Stacked(base, table, k), cps', table, k, hi)
    decreases k
  {
    if k == base.tip.height + 1 {
      cps' := cps;
    } else {
      var j := k - 1;
      assert RowsBelow(base, table, j);
      cps' := LoadsBelow(base, cps, table, j, hi);
      assert Stacks(base, table, j);
      cps' := LoadOneRow(Stacked(base, table, j), Stacked(base, table, k), cps', table, j, hi);
    }
  }

  /** Rows that meet their demands are loaded one after the other. */
  lemma MetRowsLoad(base: Tree, cps: seq<Checkpoint>, table: map<nat, Header>, k: nat, top: nat, hi: nat)
    returns (cps': seq<Checkpoint>)
    requires Loadable(base, table, top) && k <= top + 1 && top < hi && RowsBelow(base, table, k) && MetBelow(base, table, k)
    ensures LoadRows(base, cps, table, base.tip.height + 1, hi)
         == LoadRows(Stacked(base, table, k), cps', table, k, hi)
  {
    forall j: nat | base.tip.height < j < k ensures Stacks(base, table, j) {
      assert RowsBelow(base, table, j) && RowsBelow(base, table, j + 1) && MeetsDemand(base, table, j);
      StackOneMore(base, table, j, top);
    }
    cps' := LoadsBelow(base, cps, table, k, hi);
  }

  /** The load stopped below a refused row: with an error if there was another row on it. */
  ghost predicate StoppedBelow(l: Loaded, miss: nat, top: nat) {
    l.tree.tip.height == miss - 1 && l.error == if miss < top then Some(CannotLocateHistory) else None
  }

  /** A row with other bits than demanded is refused, and then so is the one on it. */
  lemma RefusedRowStops(t: Tree, base: Tree, cps: seq<Checkpoint>, table: map<nat, Header>, k: nat, top: nat, hi: nat)
    requires LoadedBelow(t, base, table, k) && RowsLink(base, table, top) && NothingAbove(table, top)
    requires k <= top < hi && !MeetsDemand(base, table, k)
    ensures StoppedBelow(LoadRows(t, cps, table, k, hi), k, top)
  {
    DemandIsRowDemand(t, base, table, k);
    assert RowLoaded(t, cps, k, table[k]) == Loaded(t, cps, None);
    if k < top {
      WalkStarts(t);
      var x, y := table[k].BlockHash(), table[k + 1].BlockHash();
      assert table[k].prev == HashBelow(base, table, k) && table[k + 1].prev == HashBelow(base, table, k + 1) == x;
      assert Depth(x) == Depth(t.tip.hash) + 1 && Depth(y) == Depth(x) + 1;
      assert y in t.headers ==> Active(t, y);
      assert x !in t.headers && y !in t.headers && x != t.tip.hash;
      assert RowLoaded(t, cps, k + 1, table[k + 1]) == Loaded(t, cps, Some(CannotLocateHistory));
    } else {
      NothingToLoad(t, cps, table, k + 1, hi);
    }
  }

  /** The lowest row that misses its demand, if any. */
  lemma {:induction false} FirstMiss(base: Tree, table: map<nat, Header>, k: nat, top: nat) returns (miss: nat)
    requires RowsLink(base, table, top) && RowsBelow(base, table, k) && k <= top + 1 && MetBelow(base, table, k)
    ensures k <= miss <= top + 1 && RowsBelow(base, table, miss) && MetBelow(base, table, miss)
    ensures miss <= top ==> !MeetsDemand(base, table, miss)
    decreases top + 1 - k
  {
    if k <= top && MeetsDemand(base, table, k) {
      assert RowsBelow(base, table, k + 1);
      miss := FirstMiss(base, table, k + 1, top);
    } else {
      miss := k;
    }
  }

  /** Loading gets to the top if and only if each row meets its demand, and then all rows are on
      the base. */
  lemma RowsLoadIff(base: Tree, cps: seq<Checkpoint>, table: map<nat, Header>, top: nat, hi: nat)
    requires Loadable(base, table, top) && top < hi
    ensures var l := LoadRows(base, cps, table, base.tip.height + 1, hi);
            && (AtTop(l, top) <==> RowsMeet(base, table, top))
            && (RowsMeet(base, table, top) ==> Complete(l, base, table, top))
  {
    var miss := FirstMiss(base, table, base.tip.height + 1, top);
    if miss <= top {
      LoadMisses(base, cps, table, miss, top, hi);
      assert !RowsMeet(base, table, top);
    } else {
      LoadCompletes(base, cps, table, top, hi);
    }
  }

  lemma LoadMisses(base: Tree, cps: seq<Checkpoint>, table: map<nat, Header>, miss: nat, top: nat, hi: nat)
    requires Loadable(base, table, top) && miss <= top < hi && RowsBelow(base, table, miss)
    requires MetBelow(base, table, miss) && !MeetsDemand(base, table, miss)
    ensures StoppedBelow(LoadRows(base, cps, table, base.tip.height + 1, hi), miss, top)
  {
    var cps' := MetRowsLoad(base, cps, table, miss, top, hi);
    BaseIsLoaded(base, table);
    StackedIsLoaded(base, table, miss, top);
    RefusedRowStops(Stacked(base, table, miss), base, cps', table, miss, top, hi);
  }

  lemma LoadCompletes(base: Tree, cps: seq<Checkpoint>, table: map<nat, Header>, top: nat, hi: nat)
    requires Loadable(base, table, top) && top < hi && RowsBelow(base, table, top + 1) && MetBelow(base, table, top + 1)
    ensures Complete(LoadRows(base, cps, table, base.tip.height + 1, hi), base, table, top)
  {
    var cps' := MetRowsLoad(base, cps, table, top + 1, top, hi);
    BaseIsLoaded(base, table);
    StackedIsLoaded(base, table, top + 1, top);
    NothingToLoad(Stacked(base, table, top + 1), cps', table, top + 1, hi);
  }

  lemma {:induction false} NothingToLoad(t: Tree, cps: seq<Checkpoint>, table: map<nat, Header>, k: nat, hi: nat)
    requires forall j | j in table :: j < k
    ensures LoadRows(t, cps, table, k, hi) == Loaded(t, cps, None)
    decreases hi - k
  {
    if k < hi {
      NothingToLoad(t, cps, table, k + 1, hi);
    }
  }

  lemma ContinuingRowsLink(base: Tree, table: map<nat, Header>, top: nat, hi: nat)
    requires RowsLink(base, table, top) && NothingAbove(table, top)
    ensures LinkedBetween(table, base.tip.height + 1, hi)
  {
    forall i, j | base.tip.height + 1 <= i < j < hi && i in table && j in table && (forall m | i < m < j :: m !in table)
      ensures Follows(table, i, j)
    {
      assert j <= top && j - 1 in table;
      assert i == j - 1;
      assert table[j].prev == HashBelow(base, table, j);
    }
  }

  lemma BaseIsStraight(c: Chain)
    requires c.tree == FromTip(c.tree.net, c.tree.tip)
    ensures Straight(BaseTree(c)) && BaseTree(c).net == c.tree.net
    ensures BaseTree(c).forks == [] && BaseTree(c).index == map[]
  {
    var t := BaseTree(c);
    if t != c.tree {
      var height := t.tip.height;
      var h := c.store.table[height];
      StartsValid(t.net, t.tip, height, h);
      StartsExact(t.net, t.tip, height, h);
    } else {
      StartsValid(t.net, t.tip, 0, t.net.genesis);
      StartsExact(t.net, t.tip, 0, t.net.genesis);
    }
  }

  /** The table was loaded up to `top` onto `base`: every row above the base is on the active
      chain at the stored height, and exactly the headers up to `scan` are assumed checked. */
  ghost predicate LoadedUpTo(t: Tree, base: Tip, table: map<nat, Header>, top: nat, scan: nat) {
    && Valid(t) && Exact(t) && t.tip.height == top
    && (t.origin.height < base.height ==> base.hash in t.headers && t.headers[base.hash].height == base.height)
    && (base.height < top ==> top in table && t.tip.hash == table[top].BlockHash())
    && (base.height == top ==> t.tip.hash == base.hash)
    && (forall j: nat | base.height < j <= top ::
          j in table && Active(t, table[j].BlockHash()) && t.headers[table[j].BlockHash()].height == j)
    && (forall x | Active(t, x) :: t.headers[x].checked <==> t.headers[x].height <= scan)
  }

  lemma LoadOntoAssumes(c: Chain, base: Tree, hi: nat, l: Loaded)
    requires LinkedBetween(c.store.table, base.tip.height + 1, hi)
    requires l == LoadRows(base, c.checkpoints, c.store.table, base.tip.height + 1, hi) && l.error == None
    ensures LoadOnto(c, base, hi).1 == None
    ensures LoadOnto(c, base, hi).0.tree == AssumeChecked(l.tree, c.tree.tip.height)
    ensures LoadOnto(c, base, hi).0.store == c.store
  {
  }

  lemma AssumedIsLoaded(t: Tree, base: Tip, table: map<nat, Header>, top: nat, scan: nat)
    requires Straight(t) && t.tip.height == top
    requires base.height < top ==> top in table && t.tip.hash == table[top].BlockHash()
    requires base.height == top ==> t.tip.hash == base.hash
    requires t.origin.height < base.height ==> base.hash in t.headers && t.headers[base.hash].height == base.height
    requires forall j: nat | base.height < j <= top ::
               j in table && table[j].BlockHash() in t.headers && t.headers[table[j].BlockHash()].height == j
    ensures LoadedUpTo(AssumeChecked(t, scan), base, table, top, scan)
  {
    AssumedFlags(t, scan);
  }

  lemma BaseIsLoaded(base: Tree, table: map<nat, Header>)
    requires Straight(base) && base.forks == [] && base.index == map[]
    ensures LoadedBelow(base, base, table, base.tip.height + 1)
  {
  }

  /** A base to load onto, and the rows up to `top` that link above it. */
  ghost predicate Loadable(base: Tree, table: map<nat, Header>, top: nat) {
    && Straight(base) && base.forks == [] && base.index == map[]
    && NothingAbove(table, top) && base.tip.height <= top && RowsLink(base, table, top)
  }

  lemma LoadsOnto(c: Chain, base: Tree, top: nat, hi: nat)
    requires Loadable(base, c.store.table, top) && top < hi && RowsMeet(base, c.store.table, top)
    ensures var (c', error) := LoadOnto(c, base, hi);
            error == None && LoadedUpTo(c'.tree, base.tip, c.store.table, top, c.tree.tip.height)
            && c'.tree.origin == base.origin && c'.store == c.store
  {
    var table, k := c.store.table, base.tip.height + 1;
    if base.headers == map[] {
      assert base.tip.height == base.origin.height;
    }
    ContinuingRowsLink(base, table, top, hi);
    RowsLoadIff(base, c.checkpoints, table, top, hi);
    var l := LoadRows(base, c.checkpoints, table, k, hi);
    LoadOntoAssumes(c, base, hi, l);
    forall j: nat | base.tip.height < j <= top
      ensures j in table && table[j].BlockHash() in l.tree.headers && l.tree.headers[table[j].BlockHash()].height == j
    {
      assert IsRow(l.tree, table, j);
    }
    AssumedIsLoaded(l.tree, base.tip, table, top, c.tree.tip.height);
  }

  lemma LoadOntoEnds(c: Chain, base: Tree, hi: nat)
    requires LinkedBetween(c.store.table, base.tip.height + 1, hi)
    ensures var l := LoadRows(base, c.checkpoints, c.store.table, base.tip.height + 1, hi);
            LoadOnto(c, base, hi).1 == l.error && LoadOnto(c, base, hi).0.tree.tip == l.tree.tip
  {
  }

  lemma LoadsToTopIff(c: Chain, base: Tree, top: nat, hi: nat)
    requires Loadable(base, c.store.table, top) && top < hi
    ensures var (c', error) := LoadOnto(c, base, hi);
            error == None && c'.tree.tip.height == top <==> RowsMeet(base, c.store.table, top)
  {
    ContinuingRowsLink(base, c.store.table, top, hi);
    RowsLoadIff(base, c.checkpoints, c.store.table, top, hi);
    LoadOntoEnds(c, base, hi);
  }

  /** A client restarted on a table that goes on from its base gets to the top of it if and only
      if each row has the bits that are demanded of it; then every row is active at its height. */
  lemma RestartRoundTrip(c: Chain, top: nat, hi: nat)
    requires c.tree == FromTip(c.tree.net, c.tree.tip) && top < hi
    requires NothingAbove(c.store.table, top) && BaseTree(c).tip.height <= top
    requires RowsLink(BaseTree(c), c.store.table, top)
    ensures var (c', error) := LoadHeaders(c, hi);
            && (error == None && c'.tree.tip.height == top <==> RowsMeet(BaseTree(c), c.store.table, top))
            && (RowsMeet(BaseTree(c), c.store.table, top) ==>
                  LoadedUpTo(c'.tree, BaseTree(c).tip, c.store.table, top, c.tree.tip.height)
                  && c'.tree.origin == BaseTree(c).origin && c'.store == c.store)
  {
    BaseIsStraight(c);
    LoadsToTopIff(c, BaseTree(c), top, hi);
    if RowsMeet(BaseTree(c), c.store.table, top) {
      LoadsOnto(c, BaseTree(c), top, hi);
    }
  }

  /** If not, it stops below the first row with other bits: without an error if that is the top row,
      and unable to locate the history if another row is on it. */
  lemma FirstMissStops(c: Chain, miss: nat, top: nat, hi: nat)
    requires c.tree == FromTip(c.tree.net, c.tree.tip) && miss <= top < hi
    requires NothingAbove(c.store.table, top) && BaseTree(c).tip.height <= top
    requires RowsLink(BaseTree(c), c.store.table, top) && RowsBelow(BaseTree(c), c.store.table, miss)
    requires MetBelow(BaseTree(c), c.store.table, miss) && !MeetsDemand(BaseTree(c), c.store.table, miss)
    ensures var (c', error) := LoadHeaders(c, hi);
            c'.tree.tip.height == miss - 1 && error == if miss < top then Some(CannotLocateHistory) else None
  {
    BaseIsStraight(c);
    LoadOntoMisses(c, BaseTree(c), miss, top, hi);
  }

  lemma LoadOntoMisses(c: Chain, base: Tree, miss: nat, top: nat, hi: nat)
    requires Loadable(base, c.store.table, top) && miss <= top < hi && RowsBelow(base, c.store.table, miss)
    requires MetBelow(base, c.store.table, miss) && !MeetsDemand(base, c.store.table, miss)
    ensures var (c', error) := LoadOnto(c, base, hi);
            c'.tree.tip.height == miss - 1 && error == if miss < top then Some(CannotLocateHistory) else None
  {
    ContinuingRowsLink(base, c.store.table, top, hi);
    LoadMisses(base, c.checkpoints, c.store.table, miss, top, hi);
    LoadOntoEnds(c, base, hi);
  }

  lemma AssumedFlags(t: Tree, height: nat)
    requires Straight(t)
    ensures var t' := AssumeChecked(t, height);
            && Valid(t') && Exact(t') && t'.tip == t.tip && SameShape(t, t')
            && (forall x | x in t.headers :: Active(t', x) && t'.headers[x].height == t.headers[x].height)
            && (forall x | Active(t', x) :: t'.headers[x].checked <==> t'.headers[x].height <= height)
  {
    SameShapeKeeps(t, AssumeChecked(t, height));
  }

  // ---------- Loading from any table ----------

  /** The tree is one unforked chain, and the row last looked at is its tip or lies above it. */
  ghost predicate Linear(t: Tree, last: Option<Hash>) {
    && Straight(t) && t.forks == []
    && (last.None? ==> forall x | x in t.headers :: x == t.tip.hash)
    && (last.Some? ==> last.value == t.tip.hash || Depth(t.tip.hash) < Depth(last.value))
  }

  lemma RowKeepsLinear(t: Tree, cps: seq<Checkpoint>, k: nat, h: Header, last: Option<Hash>)
    requires Linear(t, last) && (last.Some? ==> h.prev == last.value)
    requires RowLoaded(t, cps, k, h).error == None
    ensures Linear(RowLoaded(t, cps, k, h).tree, Some(h.BlockHash()))
    ensures RowLoaded(t, cps, k, h).tree.net == t.net
  {
    WalkStarts(t);
    if h.prev == t.tip.hash {
      ExtendsStraight(t, h);
    } else {
      assert h.BlockHash() in t.headers;
    }
  }

  lemma {:induction false} RowsKeepLinear(
      t: Tree, cps: seq<Checkpoint>, table: map<nat, Header>, from: nat, k: nat, hi: nat, last: Option<nat>)
    requires from <= k && LinkedBetween(table, from, hi) && LastBelow(table, from, k, last)
    requires Linear(t, if last.Some? then Some(table[last.value].BlockHash()) else None)
    requires LoadRows(t, cps, table, k, hi).error == None
    ensures var t' := LoadRows(t, cps, table, k, hi).tree; Straight(t') && t'.forks == [] && t'.net == t.net
    decreases hi - k
  {
    if k < hi {
      LinkStep(table, from, k, last);
      if k in table {
        var l := RowLoaded(t, cps, k, table[k]);
        assert last.Some? ==> Follows(table, last.value, k);
        RowKeepsLinear(t, cps, k, table[k], if last.Some? then Some(table[last.value].BlockHash()) else None);
        RowsKeepLinear(l.tree, l.checkpoints, table, from, k + 1, hi, Some(k));
      } else {
        RowsKeepLinear(t, cps, table, from, k + 1, hi, last);
      }
    }
  }

  /** Whatever the table holds, a load that succeeds ends with one chain and no forks, exactly
      indexed, of which the headers up to the height asked for are the checked ones. */
  lemma LoadsOneChain(c: Chain, hi: nat)
    requires c.tree == FromTip(c.tree.net, c.tree.tip) && LoadHeaders(c, hi).1 == None
    ensures var t := LoadHeaders(c, hi).0.tree;
            && Valid(t) && Exact(t) && t.forks == [] && t.net == c.tree.net
            && (forall x | x in t.headers :: Active(t, x))
            && (forall x | x in t.headers :: t.headers[x].checked <==> t.headers[x].height <= c.tree.tip.height)
  {
    BaseIsStraight(c);
    var base := BaseTree(c);
    var from := base.tip.height + 1;
    RowsKeepLinear(base, c.checkpoints, c.store.table, from, from, hi, None);
    LoadOntoAssumes(c, base, hi, LoadRows(base, c.checkpoints, c.store.table, from, hi));
    AssumedFlags(LoadRows(base, c.checkpoints, c.store.table, from, hi).tree, c.tree.tip.height);
  }

  /** Rows above a height are indexed above it. */
  lemma {:induction false} RowsIndexAbove(
      t: Tree, cps: seq<Checkpoint>, table: map<nat, Header>, from: nat, k: nat, hi: nat, last: Option<nat>, b: nat)
    requires from <= k && LinkedBetween(table, from, hi) && LastBelow(table, from, k, last)
    requires Linear(t, if last.Some? then Some(table[last.value].BlockHash()) else None)
    requires LoadRows(t, cps, table, k, hi).error == None
    requires b !in t.index && b <= t.tip.height
    ensures b !in LoadRows(t, cps, table, k, hi).tree.index
    ensures LoadRows(t, cps, table, k, hi).tree.origin == t.origin
    decreases hi - k
  {
    if k < hi {
      LinkStep(table, from, k, last);
      if k in table {
        var l := RowLoaded(t, cps, k, table[k]);
        assert last.Some? ==> Follows(table, last.value, k);
        RowKeepsLinear(t, cps, k, table[k], if last.Some? then Some(table[last.value].BlockHash()) else None);
        RowIndexesAbove(t, cps, k, table[k], if last.Some? then Some(table[last.value].BlockHash()) else None, b);
        RowsIndexAbove(l.tree, l.checkpoints, table, from, k + 1, hi, Some(k), b);
      } else {
        RowsIndexAbove(t, cps, table, from, k + 1, hi, last, b);
      }
    }
  }

  lemma RowIndexesAbove(t: Tree, cps: seq<Checkpoint>, k: nat, h: Header, last: Option<Hash>, b: nat)
    requires Linear(t, last) && (last.Some? ==> h.prev == last.value)
    requires RowLoaded(t, cps, k, h).error == None && b !in t.index && b <= t.tip.height
    ensures var t' := RowLoaded(t, cps, k, h).tree; b !in t'.index && b <= t'.tip.height && t'.origin == t.origin
  {
    WalkStarts(t);
    if h.prev != t.tip.hash {
      assert h.BlockHash() in t.headers;
    }
  }

  /** After any load that succeeds, the block that was loaded onto is not in the index. */
  lemma LoadLeavesBaseUnindexed(c: Chain, hi: nat)
    requires c.tree == FromTip(c.tree.net, c.tree.tip) && LoadHeaders(c, hi).1 == None
    ensures var t := LoadHeaders(c, hi).0.tree; BaseTree(c).tip.height !in t.index && t.origin == BaseTree(c).origin
  {
    BaseIsStraight(c);
    var base := BaseTree(c);
    var from := base.tip.height + 1;
    RowsIndexAbove(base, c.checkpoints, c.store.table, from, from, hi, None, base.tip.height);
    LoadOntoAssumes(c, base, hi, LoadRows(base, c.checkpoints, c.store.table, from, hi));
  }

  // ---------- The loaded tree agrees with the table ----------

  /** A table that links from its first row to its last, holds the block it is loaded onto if
      that has a stored header, and below the base ends at the origin. */
  ghost predicate GoodTable(table: map<nat, Header>, base: Tree, top: nat) {
    && (forall k, l | k in table && l in table && k < l && (forall m | k < m < l :: m !in table) :: Follows(table, k, l))
    && (base.origin.height < base.tip.height ==>
          base.origin.height == base.tip.height - 1
          && base.tip.height in table && table[base.tip.height].BlockHash() == base.tip.hash
          && base.origin.hash == table[base.tip.height].prev)
    && (base.origin.height == base.tip.height && top == base.tip.height ==>
          forall k | k in table && (forall m | k < m <= top :: m !in table) :: table[k].BlockHash() == base.origin.hash)
  }

  /** The highest row up to the origin is the origin. */
  lemma TopRowIsOrigin(table: map<nat, Header>, base: Tree, top: nat, k: nat)
    requires GoodTable(table, base, top) && RowsLink(base, table, top)
    requires NothingAbove(table, top) && base.tip.height <= top
    requires Valid(base) && k in table && k <= base.origin.height && (forall m | k < m <= base.origin.height :: m !in table)
    ensures table[k].BlockHash() == base.origin.hash
  {
    var next := base.origin.height + 1;
    if base.headers != map[] {
      assert Placed(base, base.tip.hash);
    }
    if base.origin.height < base.tip.height || base.tip.height < top {
      if base.tip.height < next {
        assert next in table && table[next].prev == HashBelow(base, table, next);
      }
      assert next in table && table[next].prev == base.origin.hash;
      assert Follows(table, k, next);
    } else {
      assert base.origin.height == base.tip.height == top;
    }
  }

  /** Going down from the highest row, every row is an ancestor of the origin. */
  lemma {:induction false} RowsAreAncestors(table: map<nat, Header>, origin: Origin, k: nat)
    requires k in table && k <= origin.height
    requires forall i, j | i in table && j in table && i < j <= origin.height && (forall m | i < m < j :: m !in table) ::
               Follows(table, i, j)
    requires forall i | i in table && i <= origin.height && (forall m | i < m <= origin.height :: m !in table) ::
               table[i].BlockHash() == origin.hash
    ensures Depth(table[k].BlockHash()) <= Depth(origin.hash)
    decreases origin.height - k
  {
    if m: nat :| k < m <= origin.height && m in table {
      var l := NextRow(table, k, m);
      RowsAreAncestors(table, origin, l);
      assert Follows(table, k, l);
    }
  }

  lemma {:induction false} NextRow(table: map<nat, Header>, k: nat, m: nat) returns (l: nat)
    requires k < m && m in table
    ensures k < l <= m && l in table && (forall j | k < j < l :: j !in table)
    decreases m - k
  {
    if j: nat :| k < j < m && j in table {
      l := NextRow(table, k, j);
    } else {
      l := m;
    }
  }

  lemma TableBaseLinks(table: map<nat, Header>, base: Tree, top: nat)
    requires GoodTable(table, base, top) && RowsLink(base, table, top)
    requires Valid(base) && NothingAbove(table, top) && base.tip.height <= top
    ensures BaseLinks(table, base.origin)
  {
    forall k | k in table && k <= base.origin.height && (forall m | k < m <= base.origin.height :: m !in table)
      ensures table[k].BlockHash() == base.origin.hash
    {
      TopRowIsOrigin(table, base, top, k);
    }
    forall k | k in table && k <= base.origin.height
      ensures Depth(table[k].BlockHash()) <= Depth(base.origin.hash)
    {
      RowsAreAncestors(table, base.origin, k);
    }
  }

  /** A row above the origin is an active header at its height. */
  lemma LoadedRow(t: Tree, base: Tree, table: map<nat, Header>, top: nat, scan: nat, k: nat)
    requires LoadedUpTo(t, base.tip, table, top, scan) && GoodTable(table, base, top)
    requires Valid(base) && t.origin == base.origin && base.tip.height <= top
    requires t.origin.height < k <= top
    ensures k in table && table[k].BlockHash() in t.headers && t.headers[table[k].BlockHash()].height == k
    ensures base.tip.height < k ==> Active(t, table[k].BlockHash())
  {
    if base.headers != map[] {
      assert Placed(base, base.tip.hash);
    }
  }

  ghost predicate LoadedFrom(t: Tree, base: Tree, table: map<nat, Header>, top: nat, scan: nat) {
    && LoadedUpTo(t, base.tip, table, top, scan) && GoodTable(table, base, top)
    && Valid(base) && t.origin == base.origin && base.tip.height <= top && NothingAbove(table, top)
  }

  lemma IndexedIsRow(t: Tree, base: Tree, table: map<nat, Header>, top: nat, scan: nat, k: nat)
    requires LoadedFrom(t, base, table, top, scan) && k in t.index
    ensures k in table && t.index[k] in t.headers && table[k] == t.headers[t.index[k]].header
  {
    assert Active(t, t.index[k]) && Placed(t, t.index[k]);
    ActiveIsAtHeight(t, t.index[k]);
    LoadedRow(t, base, table, top, scan, k);
    if base.headers != map[] {
      assert Placed(base, base.tip.hash);
    }
    SameByHeight(t, t.index[k], table[k].BlockHash());
  }

  lemma RootIsRow(t: Tree, base: Tree, table: map<nat, Header>, top: nat, scan: nat, x: Hash)
    requires LoadedFrom(t, base, table, top, scan) && IsRoot(t, x)
    ensures t.origin.height + 1 in table && table[t.origin.height + 1] == t.headers[x].header
  {
    RootByDepth(t, x);
    assert Placed(t, x) && Placed(t, t.tip.hash);
    LoadedRow(t, base, table, top, scan, t.origin.height + 1);
    RootByDepth(t, table[t.origin.height + 1].BlockHash());
  }

  lemma LoadedRowsAgree(t: Tree, base: Tree, table: map<nat, Header>, top: nat, scan: nat)
    requires LoadedFrom(t, base, table, top, scan)
    ensures RowsAgree(table, t)
  {
    forall k | k in t.index && t.index[k] in t.headers
      ensures k in table && table[k] == t.headers[t.index[k]].header
    {
      IndexedIsRow(t, base, table, top, scan, k);
    }
    forall k | k in table && t.origin.height < k
      ensures k in t.index || (k == t.origin.height + 1 && IsRoot(t, table[k].BlockHash()))
    {
      LoadedRow(t, base, table, top, scan, k);
      RootByDepth(t, table[k].BlockHash());
    }
    forall x | IsRoot(t, x) ensures t.origin.height + 1 in table && table[t.origin.height + 1] == t.headers[x].header {
      RootIsRow(t, base, table, top, scan, x);
    }
  }

  lemma SameByHeight(t: Tree, x: Hash, y: Hash)
    requires Valid(t) && Active(t, x) && y in t.headers && t.headers[y].height == t.headers[x].height
    requires Active(t, y) || t.headers[y].height == t.origin.height + 1
    ensures x == y && t.headers[x].header.BlockHash() == x
  {
    assert Placed(t, x);
    RootByDepth(t, x);
    RootByDepth(t, y);
    if Active(t, y) {
      OnePerHeight(t, t.tip.hash, x, y);
    }
  }

  lemma CleanStoreAgrees(s: Store, t: Tree)
    requires s.accepted == map[] && s.disconnected == {} && RowsAgree(s.table, t) && BaseLinks(s.table, t.origin)
    ensures Agrees(s, t)
  {
    assert Pending(s) == s.table;
  }

  lemma LoadedAgrees(c: Chain, base: Tree, top: nat, scan: nat)
    requires Valid(base) && LoadedUpTo(c.tree, base.tip, c.store.table, top, scan) && c.tree.origin == base.origin
    requires c.store.accepted == map[] && c.store.disconnected == {}
    requires NothingAbove(c.store.table, top) && base.tip.height <= top
    requires RowsContinue(base, c.store.table, top) && GoodTable(c.store.table, base, top)
    ensures Persists(c)
  {
    LoadedRowsAgree(c.tree, base, c.store.table, top, scan);
    TableBaseLinks(c.store.table, base, top);
    CleanStoreAgrees(c.store, c.tree);
  }

  lemma LoadsInAgreement(c: Chain, base: Tree, top: nat, hi: nat)
    requires Straight(base) && base.forks == [] && base.index == map[]
    requires top < hi && NothingAbove(c.store.table, top) && base.tip.height <= top
    requires c.store.accepted == map[] && c.store.disconnected == {}
    requires RowsContinue(base, c.store.table, top) && GoodTable(c.store.table, base, top)
    ensures Persists(LoadOnto(c, base, hi).0)
  {
    LoadsOnto(c, base, top, hi);
    LoadedAgrees(LoadOnto(c, base, hi).0, base, top, c.tree.tip.height);
  }

  /** A restart on a good table starts the run with table and tree in agreement. */
  lemma RestartAgrees(c: Chain, top: nat, hi: nat)
    requires c.tree == FromTip(c.tree.net, c.tree.tip) && top < hi
    requires c.store.accepted == map[] && c.store.disconnected == {}
    requires NothingAbove(c.store.table, top) && BaseTree(c).tip.height <= top
    requires RowsContinue(BaseTree(c), c.store.table, top)
    requires GoodTable(c.store.table, BaseTree(c), top)
    ensures Persists(LoadHeaders(c, hi).0)
  {
    BaseIsStraight(c);
    LoadsInAgreement(c, BaseTree(c), top, hi);
  }
}
