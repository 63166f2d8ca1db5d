/** The header table under every run: with any reorganizations, and with writes that fail. It
    follows the height index unless a write loses rows, and it can be loaded exactly while the
    index is exact. */
module TableFollows {
  import opened Hashes
  import opened Graph
  import opened GraphInvariant
  import opened GraphIndex
  import opened HeaderStores
  import opened ChainPersistence
  import opened Staging

  // ---------- The rows follow the index ----------

  ghost predicate RowsFollow(rows: map<nat, Header>, t: Tree) {
    RowsAgree(rows, t) && BaseLinks(rows, t.origin)
  }

  lemma ConnectFollows(rows: map<nat, Header>, t: Tree, h: Header)
    requires Valid(t) && RowsFollow(rows, t) && Accept(t, h).1.Accepted?
    ensures RowsFollow(Eager(rows, Connected(Accept(t, h).1.connectedAt)), Accept(t, h).0)
  {
    ConnectShape(t, h);
    var rows' := rows[t.tip.height + 1 := h];
    ConnectRows(rows, rows', t, Accept(t, h).0, h);
    SameBaseLinks(rows, rows', t.origin);
  }

  lemma OverlayFollows(rows: map<nat, Header>, t: Tree, t': Tree, accepted: seq<Indexed>, disconnected: seq<Indexed>)
    requires RowsFollow(rows, t) && Reorged(t, t', accepted, disconnected)
    ensures RowsFollow(Eager(rows, Reorganized(accepted, disconnected)), t')
  {
    ReorganizationRowsAgree(rows, t, t', accepted, disconnected);
    SameBaseLinks(rows, Without(rows, HashesOf(disconnected)) + Rows(accepted), t.origin);
  }

  lemma ReorganizationFollows(rows: map<nat, Header>, t: Tree, h: Header)
    requires Valid(t) && RowsFollow(rows, t) && Reorganizes(t, h)
    ensures RowsFollow(Eager(rows, Reorganized(Accept(t, h).1.accepted, Accept(t, h).1.disconnected)), Accept(t, h).0)
  {
    ReorganizationFacts(t, h);
    OverlayFollows(rows, t, Accept(t, h).0, Accept(t, h).1.accepted, Accept(t, h).1.disconnected);
  }

  lemma QuietFollows(rows: map<nat, Header>, t: Tree, h: Header)
    requires Valid(t) && RowsFollow(rows, t) && !Reorganizes(t, h) && !Accept(t, h).1.Accepted?
    ensures RowsFollow(rows, Accept(t, h).0)
  {
    if h.prev != t.tip.hash {
      NotReorganizing(t, h);
      AcceptValid(t, h);
      OnlyAddsKeepsAgreement(rows, t, Accept(t, h).0);
    }
  }

  lemma EagerChange(rows: map<nat, Header>, t: Tree, h: Header)
    ensures var changes := Accept(t, h).1;
            EagerAll(rows, HeaderChange(t, h))
            == if changes.Accepted? then Eager(rows, Connected(changes.connectedAt))
               else if changes.Reorganization? then Eager(rows, Reorganized(changes.accepted, changes.disconnected))
               else rows
  {
    var changes := Accept(t, h).1;
    if changes.Accepted? {
      OneEager(rows, Connected(changes.connectedAt));
    } else if changes.Reorganization? {
      OneEager(rows, Reorganized(changes.accepted, changes.disconnected));
    }
  }

  /** Applied at once, the changes of any header keep the rows with the index. */
  lemma HeaderFollows(rows: map<nat, Header>, t: Tree, h: Header)
    requires Valid(t) && RowsFollow(rows, t)
    ensures RowsFollow(EagerAll(rows, HeaderChange(t, h)), Accept(t, h).0)
  {
    EagerChange(rows, t, h);
    if Accept(t, h).1.Accepted? {
      ConnectFollows(rows, t, h);
    } else if Reorganizes(t, h) {
      ReorganizationFollows(rows, t, h);
    } else {
      QuietFollows(rows, t, h);
    }
  }

  // ---------- The shape of the index ----------

  /** Below every entry above the root there is one for each height, and the tip has one. */
  ghost predicate IndexClosed(t: Tree) {
    && (forall k, j: nat | k in t.index && t.origin.height + 1 < j < k :: j in t.index)
    && (t.headers != map[] && t.origin.height + 1 < t.tip.height ==>
          t.tip.height in t.index && t.index[t.tip.height] == t.tip.hash)
  }

  /** A switch from `x` down fills every height of the walk down to where it stops. */
  lemma {:induction false} SwitchFills(t: Tree, index: map<nat, Hash>, x: Hash, j: nat)
    requires AllPlaced(t) && IndexOver(t.headers, index) && x in t.headers
    requires forall k, i: nat | k in index && t.origin.height + 1 < i < k <= t.headers[x].height :: i in index
    requires t.origin.height + 1 < j <= t.headers[x].height
    ensures j in Switch(t.headers, index, x).index
    decreases x
  {
    assert Placed(t, x);
    var k := t.headers[x].height;
    if !(k in index && index[k] == x) {
      var index' := index[k := x];
      SwitchOnlyAdds(t, index', x.header.prev, k);
      if j < k {
        RootByDepth(t, x);
        assert Placed(t, x.header.prev);
        SwitchFills(t, index', x.header.prev, j);
      }
    }
  }

  /** The start of a switch is indexed by it. */
  lemma SwitchSetsTop(t: Tree, index: map<nat, Hash>, x: Hash)
    requires AllPlaced(t) && x in t.headers
    ensures var s := Switch(t.headers, index, x).index; t.headers[x].height in s && s[t.headers[x].height] == x
  {
    assert Placed(t, x);
    var k := t.headers[x].height;
    if !(k in index && index[k] == x) && x.header.prev in t.headers {
      assert Placed(t, x.header.prev);
      SwitchLeavesAbove(t, index[k := x], x.header.prev, k);
    }
  }

  lemma AcceptKeepsClosed(t: Tree, h: Header)
    requires Valid(t) && IndexClosed(t)
    ensures IndexClosed(Accept(t, h).0)
  {
    if Reorganizes(t, h) {
      ReorganizationKeepsClosed(t, h);
    } else if h.prev == t.tip.hash {
      TipHasNoStoredChild(t, h);
      ExtensionKeepsClosed(t, h);
    } else {
      NotReorganizing(t, h);
    }
  }

  lemma ExtensionKeepsClosed(t: Tree, h: Header)
    requires Valid(t) && IndexClosed(t) && h.prev == t.tip.hash
    ensures IndexClosed(ExtendTip(t, h).0)
  {
    var t' := ExtendTip(t, h).0;
    if t' != t {
      if t.headers != map[] {
        assert Placed(t, t.tip.hash);
      }
      forall k, j: nat | k in t'.index && t'.origin.height + 1 < j < k ensures j in t'.index {
        if k == t.tip.height + 1 && j < t.tip.height {
          assert t.tip.height in t.index;
        }
      }
    }
  }

  lemma ReorganizationKeepsClosed(t: Tree, h: Header)
    requires Valid(t) && IndexClosed(t) && Reorganizes(t, h)
    ensures IndexClosed(Accept(t, h).0)
  {
    ReorganizationShape(t, h);
    AcceptValid(t, h);
    var t' := Accept(t, h).0;
    var x, H := h.BlockHash(), t'.tip.height;
    assert t'.index == Switch(t'.headers, t.index, x).index;
    SwitchSetsTop(t', t.index, x);
    forall k, j: nat | k in t'.index && t'.origin.height + 1 < j < k ensures j in t'.index {
      if j <= H {
        SwitchFills(t', t.index, x, j);
      } else {
        SwitchLeavesAbove(t', t.index, x, k);
        SwitchLeavesAbove(t', t.index, x, j);
      }
    }
  }

  // ---------- When the rows load ----------

  ghost predicate LoadsEverywhere(rows: map<nat, Header>) {
    forall lo: nat, hi: nat :: LinkedBetween(rows, lo, hi)
  }

  lemma NeighboursLink(rows: map<nat, Header>, k: nat)
    requires k in rows && k + 1 in rows && rows[k + 1].prev != rows[k].BlockHash()
    ensures !LoadsEverywhere(rows)
  {
    assert !Follows(rows, k, k + 1);
    assert !LinkedBetween(rows, k, k + 2);
  }

  /** The entries at `k` and above it are those of a header and its child. */
  ghost predicate ChildAbove(t: Tree, k: nat) {
    && k in t.index && k + 1 in t.index && t.index[k + 1] in t.headers
    && t.headers[t.index[k + 1]].header.prev == t.index[k]
  }

  lemma LinkedStep(rows: map<nat, Header>, t: Tree, k: nat)
    requires Valid(t) && IndexClosed(t) && RowsAgree(rows, t) && LoadsEverywhere(rows)
    requires k in t.index && k < t.tip.height && t.origin.height < k
    ensures ChildAbove(t, k)
  {
    assert Placed(t, t.index[k]) && t.tip.height in t.index && k + 1 in t.index;
    assert Placed(t, t.index[k + 1]);
    if rows[k + 1].prev != rows[k].BlockHash() {
      NeighboursLink(rows, k);
    }
  }

  /** If every entry from `k` to the tip is followed by its child, then `k` is that of an active
      header. */
  lemma {:induction false} LinkedIsActive(t: Tree, k: nat)
    requires Valid(t) && k in t.index && k <= t.tip.height
    requires k < t.tip.height ==> t.tip.height in t.index && t.index[t.tip.height] == t.tip.hash
    requires k == t.tip.height ==> t.index[k] == t.tip.hash
    requires forall j: nat | k <= j < t.tip.height :: ChildAbove(t, j)
    ensures Active(t, t.index[k])
    decreases t.tip.height - k
  {
    if k < t.tip.height {
      assert ChildAbove(t, k);
      LinkedIsActive(t, k + 1);
      var y := t.index[k + 1];
      assert Placed(t, y);
      DescendsTransitive(t.tip.hash, y, t.index[k]);
    }
  }

  lemma IndexedRootIsActive(t: Tree, k: nat)
    requires Valid(t) && k in t.index && k == t.origin.height + 1
    ensures Active(t, t.index[k])
  {
    assert Placed(t, t.index[k]) && Placed(t, t.tip.hash);
    RootByDepth(t, t.index[k]);
    RootByDepth(t, AtHeight(t, k));
  }

  lemma LinkedIndexIsActive(rows: map<nat, Header>, t: Tree, k: nat)
    requires Valid(t) && IndexClosed(t) && RowsAgree(rows, t) && LoadsEverywhere(rows)
    requires k in t.index && k <= t.tip.height
    ensures Active(t, t.index[k])
  {
    assert Placed(t, t.index[k]);
    if k == t.origin.height + 1 {
      IndexedRootIsActive(t, k);
    } else {
      forall j: nat | k <= j < t.tip.height ensures ChildAbove(t, j) {
        assert t.tip.height in t.index && j in t.index;
        LinkedStep(rows, t, j);
      }
      LinkedIsActive(t, k);
    }
  }

  /** An entry above the tip breaks the rows: it would have to be a child of the tip. */
  lemma EntryAboveTipBreaks(rows: map<nat, Header>, t: Tree, k: nat)
    requires Valid(t) && IndexClosed(t) && RowsAgree(rows, t) && k in t.index && t.tip.height < k
    ensures !LoadsEverywhere(rows)
  {
    var top := t.tip.height;
    assert Placed(t, t.index[k]) && Placed(t, t.tip.hash);
    assert top + 1 in t.index;
    var y := t.index[top + 1];
    assert Placed(t, y) && t.headers[y].header.prev != t.tip.hash;
    TipRow(rows, t);
    NeighboursLink(rows, top);
  }

  lemma TipRow(rows: map<nat, Header>, t: Tree)
    requires Valid(t) && IndexClosed(t) && RowsAgree(rows, t) && t.headers != map[]
    ensures t.origin.height < t.tip.height && t.tip.height in rows && rows[t.tip.height].BlockHash() == t.tip.hash
  {
    assert Placed(t, t.tip.hash);
    RootByDepth(t, t.tip.hash);
    if t.tip.height == t.origin.height + 1 {
      assert IsRoot(t, t.tip.hash);
    }
  }

  /** Rows that follow the index load over every range if and only if the index is exact. */
  lemma LoadsIffExact(rows: map<nat, Header>, t: Tree)
    requires Valid(t) && IndexClosed(t) && RowsFollow(rows, t)
    ensures LoadsEverywhere(rows) <==> Exact(t)
  {
    if Exact(t) {
      forall lo: nat, hi: nat ensures LinkedBetween(rows, lo, hi) {
        AgreeingRowsLink(rows, t, lo, hi);
      }
    }
    if LoadsEverywhere(rows) {
      forall k | k in t.index ensures Active(t, t.index[k]) {
        if t.tip.height < k {
          EntryAboveTipBreaks(rows, t, k);
        } else {
          LinkedIndexIsActive(rows, t, k);
        }
      }
      forall x | Active(t, x) && !IsRoot(t, x) ensures t.headers[x].height in t.index {
        RootByDepth(t, x);
        ActiveIsAtHeight(t, x);
        assert Placed(t, x) && Placed(t, t.tip.hash);
      }
    }
  }

  lemma ExactIsClosed(t: Tree)
    requires Valid(t) && Exact(t)
    ensures IndexClosed(t)
  {
    if t.headers != map[] {
      forall k, j: nat | k in t.index && t.origin.height + 1 < j < k ensures j in t.index {
        ExactIsTheWalk(t, k);
        ExactIsTheWalk(t, j);
      }
      if t.origin.height + 1 < t.tip.height {
        ExactIsTheWalk(t, t.tip.height);
        assert Active(t, t.tip.hash);
        ActiveIsAtHeight(t, t.tip.hash);
      }
    }
  }

  /** After a reorganization of an exact tree, the rows load over every range if and only if the
      new chain is at least as tall as the one it replaces. */
  lemma ReorganizedLoadsIff(rows: map<nat, Header>, t: Tree, h: Header)
    requires Valid(t) && Exact(t) && RowsFollow(rows, t) && Reorganizes(t, h)
    ensures LoadsEverywhere(EagerAll(rows, HeaderChange(t, h))) <==> TallEnough(t, h)
  {
    var t' := Accept(t, h).0;
    ExactIsClosed(t);
    HeaderFollows(rows, t, h);
    AcceptValid(t, h);
    AcceptKeepsClosed(t, h);
    LoadsIffExact(EagerAll(rows, HeaderChange(t, h)), t');
    ReorganizationShape(t, h);
    ReorganizationKeepsIndexIff(t, h);
  }

  // ---------- Where the rows break ----------

  /** A switch reports nothing above where it starts. */
  lemma {:induction false} SwitchStaysBelow(t: Tree, index: map<nat, Hash>, x: Hash)
    requires AllPlaced(t) && x in t.headers
    ensures forall k | k in Rows(Switch(t.headers, index, x).accepted) :: k <= t.headers[x].height
    decreases x
  {
    assert Placed(t, x);
    var k := t.headers[x].height;
    if !(k in index && index[k] == x) {
      var rest := Switch(t.headers, index[k := x], x.header.prev);
      if x.header.prev in t.headers {
        assert Placed(t, x.header.prev);
        SwitchStaysBelow(t, index[k := x], x.header.prev);
      }
      var all := [Indexed(k, t.headers[x].header)] + rest.accepted;
      assert all[1..] == rest.accepted;
      assert Rows(all) == map[k := t.headers[x].header] + Rows(rest.accepted);
    }
  }

  ghost function ReorganizedRows(rows: map<nat, Header>, t: Tree, h: Header): map<nat, Header>
    requires Reorganizes(t, h)
  {
    Eager(rows, Reorganized(Accept(t, h).1.accepted, Accept(t, h).1.disconnected))
  }

  /** Above the new tip the rows stay as they were. */
  lemma RowsAboveStay(rows: map<nat, Header>, t: Tree, h: Header, k: nat)
    requires Valid(t) && RowsFollow(rows, t) && Reorganizes(t, h) && Accept(t, h).0.tip.height < k
    ensures Row(ReorganizedRows(rows, t, h), k) == Row(rows, k)
  {
    var (t', changes) := Accept(t, h);
    ReorganizationShape(t, h);
    ReorganizationFacts(t, h);
    AcceptValid(t, h);
    SwitchStaysBelow(t', t.index, h.BlockHash());
    if k in rows {
      KeptRow(rows, t, t', changes.accepted, changes.disconnected, k);
    }
  }

  /** Up to the new tip the index is exact, however short the new chain is. */
  lemma ExactUpToTip(t: Tree, h: Header)
    requires Valid(t) && Exact(t) && Reorganizes(t, h) && !TallEnough(t, h)
    ensures ExactBelow(Accept(t, h).0, Accept(t, h).0.index, h.BlockHash(), Accept(t, h).0.tip.height)
  {
    ReorganizationShape(t, h);
    ExactBeforeSwitch(t, h);
    var x, H := h.BlockHash(), t.headers[h.prev].height + 1;
    var w := WithLeaf(t, h, H);
    assert Placed(t, h.prev);
    var y := AtHeight(t, H);
    assert Placed(w, x) && Placed(w, y);
    SwitchIsExact(w, t.index, t.tip.hash, x, y);
  }

  /** The tree and the rows, cut off above the tip. */
  ghost function Cut(t: Tree): Tree {
    t.(index := map k | k in t.index && k <= t.tip.height :: t.index[k])
  }

  ghost function CutRows(rows: map<nat, Header>, top: nat): map<nat, Header> {
    map k | k in rows && k <= top :: rows[k]
  }

  lemma CutIsExact(t: Tree)
    requires Valid(t) && t.headers != map[] && ExactBelow(t, t.index, t.tip.hash, t.tip.height)
    ensures Valid(Cut(t)) && Exact(Cut(t))
  {
    var u := Cut(t);
    forall x | x in u.headers ensures Placed(u, x) {
      assert Placed(t, x);
    }
    forall x, y | IsRoot(u, x) && IsRoot(u, y) ensures x == y {
      assert IsRoot(t, x) && IsRoot(t, y);
    }
    forall x ensures Childless(u, x) <==> Childless(t, x) {}
    forall i | 0 <= i < |u.forks| ensures GoodCandidate(u, u.forks[i]) {
      assert GoodCandidate(t, t.forks[i]);
    }
    forall x | Active(u, x) && !IsRoot(u, x) ensures u.headers[x].height in u.index {
      assert Placed(t, x) && Placed(t, t.tip.hash) && !IsRoot(t, x);
      DescendsDepth(t.tip.hash, x);
    }
  }

  lemma CutAgrees(rows: map<nat, Header>, t: Tree)
    requires Valid(t) && RowsAgree(rows, t) && t.origin.height < t.tip.height
    ensures RowsAgree(CutRows(rows, t.tip.height), Cut(t))
  {
    var rows', u := CutRows(rows, t.tip.height), Cut(t);
    forall x | IsRoot(u, x) ensures t.origin.height + 1 in rows' && rows'[t.origin.height + 1] == u.headers[x].header {
      assert IsRoot(t, x);
    }
    forall k | k in rows' && t.origin.height < k
      ensures k in u.index || (k == t.origin.height + 1 && IsRoot(u, rows'[k].BlockHash()))
    {
      assert k in t.index || IsRoot(t, rows[k].BlockHash());
    }
  }

  lemma CutFollows(rows: map<nat, Header>, t: Tree)
    requires Valid(t) && RowsFollow(rows, t) && t.origin.height < t.tip.height
    ensures RowsFollow(CutRows(rows, t.tip.height), Cut(t))
  {
    CutAgrees(rows, t);
    SameBaseLinks(rows, CutRows(rows, t.tip.height), t.origin);
  }

  /** Neighbouring rows up to the tip of the new chain link. */
  lemma LinkedUpToTip(rows: map<nat, Header>, t: Tree, k: nat, l: nat)
    requires Valid(t) && t.headers != map[] && RowsFollow(rows, t)
    requires ExactBelow(t, t.index, t.tip.hash, t.tip.height)
    requires k in rows && l in rows && k < l <= t.tip.height && (forall m | k < m < l :: m !in rows)
    ensures Follows(rows, k, l)
  {
    assert Placed(t, t.tip.hash);
    CutIsExact(t);
    CutFollows(rows, t);
    var rows' := CutRows(rows, t.tip.height);
    AgreeingRowsLink(rows', Cut(t), k, l + 1);
    assert Follows(rows', k, l);
  }

  /** What a reorganization to a shorter chain makes of the tree and of the rows. */
  ghost predicate Shortened(rows: map<nat, Header>, t: Tree, rows': map<nat, Header>, t': Tree) {
    && Valid(t) && Exact(t) && RowsFollow(rows, t) && Valid(t') && RowsFollow(rows', t')
    && t.headers != map[] && t'.headers != map[] && t.origin.height < t'.tip.height < t.tip.height
    && t'.tip.height in t'.index && t'.index[t'.tip.height] == t'.tip.hash
    && ExactBelow(t', t'.index, t'.tip.hash, t'.tip.height)
    && (forall k: nat | t'.tip.height < k :: Row(rows', k) == Row(rows, k))
    && (forall x | x in t.headers :: x in t'.headers && t'.headers[x].header == t.headers[x].header)
  }

  lemma ShorterIsShortened(rows: map<nat, Header>, t: Tree, h: Header)
    requires Valid(t) && Exact(t) && RowsFollow(rows, t) && Reorganizes(t, h) && !TallEnough(t, h)
    ensures Shortened(rows, t, ReorganizedRows(rows, t, h), Accept(t, h).0)
  {
    var t' := Accept(t, h).0;
    ReorganizationShape(t, h);
    AcceptValid(t, h);
    ReorganizationFollows(rows, t, h);
    ExactUpToTip(t, h);
    SwitchSetsTop(t', t.index, h.BlockHash());
    assert Placed(t, h.prev);
    forall k: nat | t'.tip.height < k ensures Row(ReorganizedRows(rows, t, h), k) == Row(rows, k) {
      RowsAboveStay(rows, t, h, k);
    }
  }

  lemma IndexedTipRow(rows: map<nat, Header>, t: Tree)
    requires Valid(t) && RowsAgree(rows, t) && t.tip.height in t.index && t.index[t.tip.height] == t.tip.hash
    ensures t.tip.height in rows && rows[t.tip.height].BlockHash() == t.tip.hash
  {
    assert Placed(t, t.tip.hash);
  }

  lemma StoredIsNoChild(t: Tree, x: Hash)
    requires Valid(t) && x in t.headers
    ensures t.headers[x].header.prev != t.tip.hash
  {
  }

  /** The row of the new tip and the stale row above it do not link. */
  lemma StaleRowBreaks(rows: map<nat, Header>, t: Tree, rows': map<nat, Header>, t': Tree)
    requires Shortened(rows, t, rows', t')
    ensures BreaksAt(rows', t'.tip.height)
  {
    IndexedTipRow(rows', t');
    StaleRowIsOld(rows, t, t'.tip.height + 1);
    assert Row(rows', t'.tip.height + 1) == Row(rows, t'.tip.height + 1);
    StoredIsNoChild(t', AtHeight(t, t'.tip.height + 1));
  }

  lemma StaleRowIsOld(rows: map<nat, Header>, t: Tree, k: nat)
    requires Valid(t) && Exact(t) && RowsAgree(rows, t) && t.headers != map[] && t.origin.height < k <= t.tip.height
    ensures k in rows && AtHeight(t, k) in t.headers && rows[k] == t.headers[AtHeight(t, k)].header
  {
    RowIsActive(rows, t, k);
  }

  /** All other neighbouring rows link. */
  lemma NeighboursOffTip(rows: map<nat, Header>, t: Tree, rows': map<nat, Header>, t': Tree, k: nat, l: nat)
    requires Shortened(rows, t, rows', t') && k in rows' && l in rows' && k < l && (forall m | k < m < l :: m !in rows')
    requires l <= t'.tip.height || t'.tip.height < k
    ensures Follows(rows', k, l)
  {
    if l <= t'.tip.height {
      LinkedUpToTip(rows', t', k, l);
    } else {
      forall m | k <= m <= l ensures Row(rows', m) == Row(rows, m) {}
      forall m | k < m < l ensures m !in rows {
        assert Row(rows', m) == Row(rows, m);
      }
      assert Row(rows', k) == Row(rows, k) && Row(rows', l) == Row(rows, l);
      AgreeingRowsLink(rows, t, k, l + 1);
      assert Follows(rows, k, l);
    }
  }

  ghost predicate Adjacent(rows: map<nat, Header>, k: nat, l: nat) {
    k in rows && l in rows && k < l && forall m | k < m < l :: m !in rows
  }

  /** Adjacent rows link, but for those on the two sides of `top`. */
  ghost predicate LinkedOff(rows: map<nat, Header>, top: nat) {
    forall k: nat, l: nat | Adjacent(rows, k, l) && (l <= top || top < k) :: Follows(rows, k, l)
  }

  /** The rows at `top` and right above it do not link. */
  ghost predicate BreaksAt(rows: map<nat, Header>, top: nat) {
    top in rows && top + 1 in rows && rows[top + 1].prev != rows[top].BlockHash()
  }

  lemma LinkedButOne(rows: map<nat, Header>, top: nat, lo: nat, hi: nat)
    requires BreaksAt(rows, top) && LinkedOff(rows, top)
    ensures LinkedBetween(rows, lo, hi) <==> !(lo <= top && top + 1 < hi)
  {
    assert !Follows(rows, top, top + 1);
    if !(lo <= top && top + 1 < hi) {
      forall k, l | lo <= k < l < hi && k in rows && l in rows && (forall m | k < m < l :: m !in rows)
        ensures Follows(rows, k, l)
      {
        assert Adjacent(rows, k, l);
      }
    }
  }

  lemma ShortenedLinksOff(rows: map<nat, Header>, t: Tree, rows': map<nat, Header>, t': Tree)
    requires Shortened(rows, t, rows', t')
    ensures LinkedOff(rows', t'.tip.height)
  {
    forall k: nat, l: nat | Adjacent(rows', k, l) && (l <= t'.tip.height || t'.tip.height < k) ensures Follows(rows', k, l) {
      NeighboursOffTip(rows, t, rows', t', k, l);
    }
  }

  lemma ShortReorganizationBreaks(rows: map<nat, Header>, t: Tree, h: Header)
    requires Valid(t) && Exact(t) && RowsFollow(rows, t) && Reorganizes(t, h) && !TallEnough(t, h)
    ensures BreaksAt(ReorganizedRows(rows, t, h), Accept(t, h).0.tip.height)
  {
    ShorterIsShortened(rows, t, h);
    StaleRowBreaks(rows, t, ReorganizedRows(rows, t, h), Accept(t, h).0);
  }

  lemma ShortReorganizationLinksOff(rows: map<nat, Header>, t: Tree, h: Header)
    requires Valid(t) && Exact(t) && RowsFollow(rows, t) && Reorganizes(t, h) && !TallEnough(t, h)
    ensures LinkedOff(ReorganizedRows(rows, t, h), Accept(t, h).0.tip.height)
  {
    ShorterIsShortened(rows, t, h);
    ShortenedLinksOff(rows, t, ReorganizedRows(rows, t, h), Accept(t, h).0);
  }

  /** After a reorganization of an exact tree to a shorter chain, the rows break in one place:
      between the new tip and the stale row above it. So the rows of a range load if and only if
      the range does not hold both. */
  lemma ShortReorganizationLoadsIff(rows: map<nat, Header>, t: Tree, h: Header, lo: nat, hi: nat)
    requires Valid(t) && Exact(t) && RowsFollow(rows, t) && Reorganizes(t, h) && !TallEnough(t, h)
    ensures LinkedBetween(ReorganizedRows(rows, t, h), lo, hi)
       <==> !(lo <= Accept(t, h).0.tip.height && Accept(t, h).0.tip.height + 1 < hi)
  {
    ShortReorganizationBreaks(rows, t, h);
    ShortReorganizationLinksOff(rows, t, h);
    LinkedButOne(ReorganizedRows(rows, t, h), Accept(t, h).0.tip.height, lo, hi);
  }
}
