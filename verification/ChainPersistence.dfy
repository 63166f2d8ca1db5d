/** The header table, with what is staged for it, against the height index of the tree. */
module ChainPersistence {
  import opened Hashes
  import opened Graph
  import opened GraphInvariant
  import opened GraphIndex
  import opened GraphWork
  import opened HeaderStores
  import opened ChainState

  /** Above the origin, the rows are those of the index, and the root. */
  ghost predicate RowsAgree(rows: map<nat, Header>, t: Tree) {
    && (forall k | k in t.index && t.index[k] in t.headers ::
          k in rows && rows[k] == t.headers[t.index[k]].header)
    && (forall k | k in rows && t.origin.height < k ::
          k in t.index || (k == t.origin.height + 1 && IsRoot(t, rows[k].BlockHash())))
    && (forall x | IsRoot(t, x) ::
          t.origin.height + 1 in rows && rows[t.origin.height + 1] == t.headers[x].header)
  }

  /** Up to the origin, the rows are an older stretch of chain that ends at the origin. */
  ghost predicate BaseLinks(rows: map<nat, Header>, origin: Origin) {
    && (forall k, l | k in rows && l in rows && k < l <= origin.height && (forall m | k < m < l :: m !in rows) ::
          Follows(rows, k, l))
    && (forall k | k in rows && k <= origin.height :: Depth(rows[k].BlockHash()) <= Depth(origin.hash))
    && (forall k | k in rows && k <= origin.height && (forall m | k < m <= origin.height :: m !in rows) ::
          rows[k].BlockHash() == origin.hash)
  }

  ghost predicate Agrees(s: Store, t: Tree) {
    NoConflict(s) && RowsAgree(Pending(s), t) && BaseLinks(Pending(s), t.origin)
  }

  ghost predicate SameBase(rows: map<nat, Header>, rows': map<nat, Header>, origin: Origin) {
    forall k: nat | k <= origin.height :: Row(rows, k) == Row(rows', k)
  }

  lemma SameBaseLinks(rows: map<nat, Header>, rows': map<nat, Header>, origin: Origin)
    requires BaseLinks(rows, origin) && SameBase(rows, rows', origin)
    ensures BaseLinks(rows', origin)
  {
    assert forall k: nat | k <= origin.height :: Row(rows, k) == Row(rows', k);
    forall k, l | k in rows' && l in rows' && k < l <= origin.height && (forall m | k < m < l :: m !in rows')
      ensures Follows(rows', k, l)
    {
      assert Row(rows, k) == Row(rows', k) && Row(rows, l) == Row(rows', l);
      forall m | k < m < l ensures m !in rows {
        assert Row(rows, m) == Row(rows', m);
      }
      assert Follows(rows, k, l);
    }
    forall k | k in rows' && k <= origin.height ensures k in rows && rows[k] == rows'[k] {
      assert Row(rows, k) == Row(rows', k);
    }
    forall k | k in rows' && k <= origin.height && (forall m | k < m <= origin.height :: m !in rows')
      ensures rows'[k].BlockHash() == origin.hash
    {
      forall m | k < m <= origin.height ensures m !in rows {
        assert Row(rows, m) == Row(rows', m);
      }
    }
  }

  // ---------- A header on the tip ----------

  /** `t'` is `t` with `h` on its tip. */
  ghost predicate Extends(t: Tree, t': Tree, h: Header) {
    && t'.origin == t.origin && t.origin.height <= t.tip.height
    && (t.headers != map[] ==> t.origin.height < t.tip.height)
    && t'.index == t.index[t.tip.height + 1 := h.BlockHash()]
    && h.BlockHash() !in t.headers && t'.headers.Keys == t.headers.Keys + {h.BlockHash()}
    && (forall x | x in t.headers :: t'.headers[x] == t.headers[x])
    && t'.headers[h.BlockHash()].header == h
    && (IsRoot(t', h.BlockHash()) ==> t.headers == map[] && t.tip.height == t.origin.height)
  }

  lemma ConnectShape(t: Tree, h: Header)
    requires Valid(t) && Accept(t, h).1.Accepted?
    ensures Extends(t, Accept(t, h).0, h)
    ensures Accept(t, h).1.connectedAt == Indexed(t.tip.height + 1, h)
  {
    TipHasNoStoredChild(t, h);
    OriginNotStored(t);
    if t.headers != map[] {
      assert Placed(t, t.tip.hash);
    }
  }

  lemma ConnectRows(rows: map<nat, Header>, rows': map<nat, Header>, t: Tree, t': Tree, h: Header)
    requires RowsAgree(rows, t) && IndexOver(t.headers, t.index) && Extends(t, t', h)
    requires rows' == rows[t.tip.height + 1 := h]
    ensures RowsAgree(rows', t') && SameBase(rows, rows', t.origin)
  {
    forall k | k in rows' && t.origin.height < k
      ensures k in t'.index || (k == t.origin.height + 1 && IsRoot(t', rows'[k].BlockHash()))
    {
      if k != t.tip.height + 1 {
        assert k in t.index || IsRoot(t, rows[k].BlockHash());
      }
    }
    forall x | IsRoot(t', x)
      ensures t.origin.height + 1 in rows' && rows'[t.origin.height + 1] == t'.headers[x].header
    {
      if x != h.BlockHash() {
        assert IsRoot(t, x);
      }
    }
  }

  // ---------- A reorganization ----------

  /** What `ReorganizationRows` and `ReorganizationDisplaces` say of a step from `t` to `t'`. */
  ghost predicate Reorged(t: Tree, t': Tree, accepted: seq<Indexed>, disconnected: seq<Indexed>) {
    && t'.origin == t.origin && AllPlaced(t) && AllPlaced(t') && OneRoot(t')
    && IndexOver(t.headers, t.index) && IndexOver(t'.headers, t'.index)
    && t.headers.Keys <= t'.headers.Keys
    && (forall x | x in t.headers :: t'.headers[x] == t.headers[x])
    && (forall x | IsRoot(t', x) :: IsRoot(t, x))
    && RowsOf(t'.headers, t'.index) == RowsOf(t.headers, t.index) + Rows(accepted)
    && (forall d | d in disconnected ::
          d.header.BlockHash() in t'.headers && t'.headers[d.header.BlockHash()].height == d.height)
    && (forall k | k in t.index && k in Rows(accepted) :: IndexedAt(t.headers, t.index[k]) in disconnected)
    && (forall k | k in Rows(accepted) :: t.origin.height < k)
    && Heights(disconnected) <= Rows(accepted).Keys
  }

  lemma ReorganizationFacts(t: Tree, h: Header)
    requires Valid(t) && Reorganizes(t, h)
    ensures Reorged(t, Accept(t, h).0, Accept(t, h).1.accepted, Accept(t, h).1.disconnected)
  {
    var (t', changes) := Accept(t, h);
    AcceptValid(t, h);
    ReorganizationShape(t, h);
    ReorganizationDisplaces(t, h);
    ReorganizationRows(t, h);
    OverlayHidesRemoval(RowsOf(t.headers, t.index), Heights(changes.disconnected), Rows(changes.accepted));
    forall x | IsRoot(t', x) ensures IsRoot(t, x) {
      OriginNotStored(t);
    }
  }

  /** A row that a reorganization reports at the root's height is the root. */
  lemma RootOverlay(t: Tree, t': Tree, accepted: seq<Indexed>, disconnected: seq<Indexed>, root: Header)
    requires Reorged(t, t', accepted, disconnected) && IsRoot(t', root.BlockHash())
    ensures var k := t.origin.height + 1; k in Rows(accepted) ==> Rows(accepted)[k] == root
  {
    var k := t.origin.height + 1;
    if k in Rows(accepted) {
      assert k in RowsOf(t'.headers, t'.index);
      assert Placed(t', t'.index[k]);
      RootByDepth(t', t'.index[k]);
      assert Placed(t', root.BlockHash());
    }
  }

  /** A row whose header is stored is above the origin, at the height of that header. */
  lemma RowHeight(rows: map<nat, Header>, t: Tree, t': Tree, accepted: seq<Indexed>, disconnected: seq<Indexed>, k: nat)
    requires RowsAgree(rows, t) && BaseLinks(rows, t.origin) && Reorged(t, t', accepted, disconnected)
    requires k in rows && rows[k].BlockHash() in t'.headers
    ensures t'.headers[rows[k].BlockHash()].height == k
  {
    assert Placed(t', rows[k].BlockHash());
    if k in t.index {
      assert Placed(t, t.index[k]);
    } else if t.origin.height < k {
      RootByDepth(t, rows[k].BlockHash());
    }
  }

  /** A row that no accepted row replaces is not among the disconnected ones. */
  lemma KeptRow(rows: map<nat, Header>, t: Tree, t': Tree, accepted: seq<Indexed>, disconnected: seq<Indexed>, k: nat)
    requires RowsAgree(rows, t) && BaseLinks(rows, t.origin) && Reorged(t, t', accepted, disconnected)
    requires k in rows && k !in Rows(accepted)
    ensures rows[k].BlockHash() !in HashesOf(disconnected)
  {
    forall d | d in disconnected ensures d.header.BlockHash() != rows[k].BlockHash() {
      assert d.height in Heights(disconnected);
      if rows[k].BlockHash() in t'.headers {
        RowHeight(rows, t, t', accepted, disconnected, k);
      }
    }
  }

  lemma IndexRowsAgree(t: Tree, t': Tree, accepted: seq<Indexed>, disconnected: seq<Indexed>, k: nat)
    requires Reorged(t, t', accepted, disconnected)
    ensures k in t'.index <==> k in t.index || k in Rows(accepted)
    ensures k in t'.index ==>
              t'.headers[t'.index[k]].header ==
              if k in Rows(accepted) then Rows(accepted)[k] else t.headers[t.index[k]].header
  {
    var before, after := RowsOf(t.headers, t.index), RowsOf(t'.headers, t'.index);
    assert k in after <==> k in before || k in Rows(accepted);
  }

  lemma RootRowAgrees(rows: map<nat, Header>, rows': map<nat, Header>, t: Tree, t': Tree,
                      accepted: seq<Indexed>, disconnected: seq<Indexed>, x: Hash)
    requires RowsAgree(rows, t) && Reorged(t, t', accepted, disconnected) && IsRoot(t', x)
    requires Overlaid(rows, rows', Rows(accepted))
    ensures t.origin.height + 1 in rows' && rows'[t.origin.height + 1] == t'.headers[x].header
  {
    assert Placed(t', x);
    RootOverlay(t, t', accepted, disconnected, t'.headers[x].header);
    assert IsRoot(t, x);
  }

  ghost predicate Overlaid(rows: map<nat, Header>, rows': map<nat, Header>, added: map<nat, Header>) {
    && (forall k :: k in rows' <==> k in rows || k in added)
    && (forall k | k in rows' :: rows'[k] == if k in added then added[k] else rows[k])
  }

  lemma OverlaidIndexAgrees(rows: map<nat, Header>, rows': map<nat, Header>, t: Tree, t': Tree,
                            accepted: seq<Indexed>, disconnected: seq<Indexed>, k: nat)
    requires RowsAgree(rows, t) && Reorged(t, t', accepted, disconnected)
    requires Overlaid(rows, rows', Rows(accepted))
    ensures k in t'.index ==> k in rows' && rows'[k] == t'.headers[t'.index[k]].header
    ensures k in rows' && t.origin.height < k ==>
              k in t'.index || (k == t.origin.height + 1 && IsRoot(t', rows'[k].BlockHash()))
    ensures k <= t.origin.height ==> Row(rows, k) == Row(rows', k)
  {
    IndexRowsAgree(t, t', accepted, disconnected, k);
    if k in t.index {
      assert k in rows;
    }
  }

  lemma OverlaidSameBase(rows: map<nat, Header>, rows': map<nat, Header>, t: Tree, t': Tree,
                         accepted: seq<Indexed>, disconnected: seq<Indexed>)
    requires RowsAgree(rows, t) && Reorged(t, t', accepted, disconnected)
    requires Overlaid(rows, rows', Rows(accepted))
    ensures SameBase(rows, rows', t.origin)
  {
    forall k: nat | k <= t.origin.height ensures Row(rows, k) == Row(rows', k) {
      OverlaidIndexAgrees(rows, rows', t, t', accepted, disconnected, k);
    }
  }

  lemma OverlaidRowsAgree(rows: map<nat, Header>, rows': map<nat, Header>, t: Tree, t': Tree,
                          accepted: seq<Indexed>, disconnected: seq<Indexed>)
    requires RowsAgree(rows, t) && Reorged(t, t', accepted, disconnected)
    requires Overlaid(rows, rows', Rows(accepted))
    ensures RowsAgree(rows', t')
  {
    assert t'.origin == t.origin;
    forall k | k in t'.index && t'.index[k] in t'.headers
      ensures k in rows' && rows'[k] == t'.headers[t'.index[k]].header
    {
      OverlaidIndexAgrees(rows, rows', t, t', accepted, disconnected, k);
    }
    forall k | k in rows' && t'.origin.height < k
      ensures k in t'.index || (k == t'.origin.height + 1 && IsRoot(t', rows'[k].BlockHash()))
    {
      OverlaidIndexAgrees(rows, rows', t, t', accepted, disconnected, k);
    }
    forall x | IsRoot(t', x)
      ensures t'.origin.height + 1 in rows' && rows'[t'.origin.height + 1] == t'.headers[x].header
    {
      RootRowAgrees(rows, rows', t, t', accepted, disconnected, x);
    }
  }

  lemma ReorganizationRowsAgree(rows: map<nat, Header>, t: Tree, t': Tree, accepted: seq<Indexed>, disconnected: seq<Indexed>)
    requires RowsAgree(rows, t) && BaseLinks(rows, t.origin) && Reorged(t, t', accepted, disconnected)
    ensures var rows' := Without(rows, HashesOf(disconnected)) + Rows(accepted);
            RowsAgree(rows', t') && SameBase(rows, rows', t.origin)
  {
    var added := Rows(accepted);
    var rows' := Without(rows, HashesOf(disconnected)) + added;
    assert Overlaid(rows, rows', added) by {
      forall k | k in rows && k !in added ensures k in Without(rows, HashesOf(disconnected)) {
        KeptRow(rows, t, t', accepted, disconnected, k);
      }
    }
    OverlaidRowsAgree(rows, rows', t, t', accepted, disconnected);
    OverlaidSameBase(rows, rows', t, t', accepted, disconnected);
  }

  // ---------- Steps that touch no row ----------

  lemma OnlyAddsKeepsAgreement(rows: map<nat, Header>, t: Tree, t': Tree)
    requires Valid(t) && Valid(t') && OnlyAdds(t, t') && RowsAgree(rows, t)
    ensures RowsAgree(rows, t')
  {
    forall x | IsRoot(t', x) ensures IsRoot(t, x) {
      if t.headers != map[] {
        assert Placed(t, t.tip.hash);
        var r := AtHeight(t, t.origin.height + 1);
        RootByDepth(t, r);
        assert IsRoot(t', r);
      }
    }
    forall k | k in rows && t.origin.height < k
      ensures k in t'.index || (k == t.origin.height + 1 && IsRoot(t', rows[k].BlockHash()))
    {
      assert k in t.index || IsRoot(t, rows[k].BlockHash());
    }
  }

  // ---------- Whole batches ----------

  /** Every reorganization in the batch is tall enough. */
  ghost predicate NeverShort(c: Chain, hs: seq<Header>, next: Option<Checkpoint>)
    decreases |hs|
  {
    hs == [] || (TallEnough(c.tree, hs[0]) && NeverShort(AbsorbOne(c, hs[0], next).chain, hs[1..], next))
  }

  /** No header of the batch is a rejected extension of a candidate fork. */
  ghost predicate NeverDrops(c: Chain, hs: seq<Header>, next: Option<Checkpoint>)
    decreases |hs|
  {
    hs == [] || (!DropsCandidate(c.tree, hs[0]) && NeverDrops(AbsorbOne(c, hs[0], next).chain, hs[1..], next))
  }

  /** Without retargeting, every reorganization is tall enough, and that lasts. */
  lemma {:induction false} UniformNeverShort(c: Chain, hs: seq<Header>, next: Option<Checkpoint>, bits: Bits)
    requires UniformBest(c.tree, bits) && NeverDrops(c, hs, next)
    ensures NeverShort(c, hs, next) && UniformBest(AbsorbAll(c, hs, next).chain.tree, bits)
    decreases |hs|
  {
    if hs != [] {
      UniformStep(c.tree, hs[0], bits);
      AbsorbOneParts(c, hs[0], next);
      UniformNeverShort(AbsorbOne(c, hs[0], next).chain, hs[1..], next, bits);
    }
  }

  ghost predicate Persists(c: Chain) {
    Valid(c.tree) && Exact(c.tree) && Agrees(c.store, c.tree)
  }

  /** What one header does to the tree and to the store. */
  lemma AbsorbOneParts(c: Chain, h: Header, next: Option<Checkpoint>)
    ensures var (c', (tree, changes)) := (AbsorbOne(c, h, next).chain, Accept(c.tree, h));
            && c'.tree == tree
            && c'.store == match changes
                           case Accepted(at) => Stage(c.store, HeaderStores.Connected(at))
                           case Reorganization(accepted, disconnected) =>
                             Stage(c.store, HeaderStores.Reorganized(accepted, disconnected))
                           case _ => c.store
  {
  }

  lemma SyncChainParts(c: Chain, hs: seq<Header>, fault: Fault)
    ensures var (c', error) := SyncChain(c, hs, fault);
            var a := AbsorbAll(c, hs, NextCheckpoint(c));
            || (c'.tree == c.tree && c'.store == c.store)
            || (c'.tree == a.chain.tree && c'.store == a.chain.store && error.Some?)
            || (c'.tree == a.chain.tree && c'.store == Write(a.chain.store, fault).0)
  {
  }

  // ---------- Reading the table back ----------

  /** Rows in step with an exact index link up over any range. */
  lemma AgreeingRowsLink(rows: map<nat, Header>, t: Tree, lo: nat, hi: nat)
    requires Valid(t) && Exact(t) && RowsAgree(rows, t) && BaseLinks(rows, t.origin)
    ensures LinkedBetween(rows, lo, hi)
  {
    forall k, l | lo <= k < l < hi && k in rows && l in rows && (forall m | k < m < l :: m !in rows)
      ensures Follows(rows, k, l)
    {
      if t.origin.height < l {
        AgreeingRowFollows(rows, t, k, l);
      }
    }
  }

  /** The row at an active height is the active header. */
  lemma RowIsActive(rows: map<nat, Header>, t: Tree, k: nat)
    requires Valid(t) && Exact(t) && RowsAgree(rows, t) && t.headers != map[]
    requires t.origin.height < k <= t.tip.height
    ensures k in rows && rows[k] == t.headers[AtHeight(t, k)].header
  {
    ExactIsTheWalk(t, k);
    var a := AtHeight(t, k);
    RootByDepth(t, a);
    if k == t.origin.height + 1 {
      assert IsRoot(t, a);
    }
  }

  lemma RowIsBelowTip(rows: map<nat, Header>, t: Tree, k: nat)
    requires Valid(t) && Exact(t) && RowsAgree(rows, t) && k in rows && t.origin.height < k
    ensures t.headers != map[] && k <= t.tip.height
  {
    if k in t.index {
      assert Active(t, t.index[k]);
      ExactIsTheWalk(t, k);
    } else {
      assert IsRoot(t, rows[k].BlockHash());
      assert Placed(t, t.tip.hash);
    }
  }

  lemma TopOfBase(rows: map<nat, Header>, origin: Origin, k: nat)
    requires BaseLinks(rows, origin) && k in rows && k <= origin.height
    requires forall m | k < m < origin.height + 1 :: m !in rows
    ensures rows[k].BlockHash() == origin.hash
  {
    forall m | k < m <= origin.height ensures m !in rows {
      assert k < m < origin.height + 1;
    }
  }

  lemma AgreeingRowFollows(rows: map<nat, Header>, t: Tree, k: nat, l: nat)
    requires Valid(t) && Exact(t) && RowsAgree(rows, t) && BaseLinks(rows, t.origin)
    requires k in rows && l in rows && k < l && t.origin.height < l && (forall m | k < m < l :: m !in rows)
    ensures Follows(rows, k, l)
  {
    RowIsBelowTip(rows, t, l);
    RowIsActive(rows, t, l);
    var x := AtHeight(t, l);
    RootByDepth(t, x);
    assert Placed(t, x);
    if t.origin.height + 1 < l {
      RowIsActive(rows, t, l - 1);
      assert k == l - 1;
      ParentIsBelow(t, x);
      assert Placed(t, AtHeight(t, k));
    } else {
      TopOfBase(rows, t.origin, k);
      assert IsRoot(t, x);
    }
  }

  lemma ParentIsBelow(t: Tree, x: Hash)
    requires Valid(t) && Active(t, x) && !IsRoot(t, x)
    ensures t.headers != map[] && t.origin.height < t.headers[x].height - 1 <= t.tip.height
    ensures t.headers[x].header.prev == AtHeight(t, t.headers[x].height - 1)
  {
    RootByDepth(t, x);
    assert Placed(t, x);
    var p := t.headers[x].header.prev;
    assert Placed(t, p);
    DescendsTransitive(t.tip.hash, x, p);
    ActiveIsAtHeight(t, p);
  }

  /** Nothing is left staged by a sync that reports no error. */
  lemma SyncChainFlushes(c: Chain, hs: seq<Header>)
    requires c.store.accepted == map[] && c.store.disconnected == {} && SyncChain(c, hs, NoFault).1 == None
    ensures var s := SyncChain(c, hs, NoFault).0.store;
            s.accepted == map[] && s.disconnected == {} && Pending(s) == s.table
  {
    SyncChainParts(c, hs, NoFault);
  }

  /** The table holds the active chain above the origin, and loads over every range. */
  ghost predicate TableIsChain(table: map<nat, Header>, t: Tree) {
    && (forall lo: nat, hi: nat :: LinkedBetween(table, lo, hi))
    && (forall k: nat | t.origin.height < k ::
          k in table <==> t.headers != map[] && k <= t.tip.height)
    && (Valid(t) && t.headers != map[] ==>
          forall k: nat | t.origin.height < k <= t.tip.height :: table[k] == t.headers[AtHeight(t, k)].header)
  }

  lemma AgreeingTableIsChain(table: map<nat, Header>, t: Tree)
    requires Valid(t) && Exact(t) && RowsAgree(table, t) && BaseLinks(table, t.origin)
    ensures TableIsChain(table, t)
  {
    forall lo: nat, hi: nat ensures LinkedBetween(table, lo, hi) {
      AgreeingRowsLink(table, t, lo, hi);
    }
    forall k: nat | t.origin.height < k ensures k in table <==> t.headers != map[] && k <= t.tip.height {
      if k in table {
        RowIsBelowTip(table, t, k);
      }
      if t.headers != map[] && k <= t.tip.height {
        RowIsActive(table, t, k);
      }
    }
    if t.headers != map[] {
      forall k: nat | t.origin.height < k <= t.tip.height
        ensures table[k] == t.headers[AtHeight(t, k)].header
      {
        RowIsActive(table, t, k);
      }
    }
  }
}
