/** The header table over whole runs of the node, and what the next start makes of it. */
module TableRuns {
  import opened Hashes
  import opened Graph
  import opened GraphInvariant
  import opened GraphIndex
  import opened GraphFilters
  import opened HeaderStores
  import opened ChainState
  import opened ChainPersistence
  import opened ChainInvariant
  import opened ChainLoad
  import opened FilterHeaderChain
  import opened NodeState
  import opened NodeRuns
  import opened Staging
  import opened TableFollows

  // ---------- Batches and writes ----------

  /** Every disconnected hash that is staged is that of a stored header. */
  ghost predicate DisconnectedStored(s: Store, t: Tree) {
    forall x | x in s.disconnected :: x in t.headers
  }

  ghost predicate StagedSoundly(s: Store, t: Tree) {
    StagedAtHeights(s, t) && DisconnectedStored(s, t)
  }

  /** The table, with what is staged, follows the height index. */
  ghost predicate Followed(s: Store, t: Tree) {
    Valid(t) && IndexClosed(t) && StagedSoundly(s, t) && RowsFollow(Pending(s), t)
  }

  lemma AbsorbOneDisconnects(c: Chain, h: Header, next: Option<Checkpoint>)
    requires Valid(c.tree) && DisconnectedStored(c.store, c.tree)
    ensures DisconnectedStored(AbsorbOne(c, h, next).chain.store, AbsorbOne(c, h, next).chain.tree)
  {
    var changes := Accept(c.tree, h).1;
    AbsorbOneParts(c, h, next);
    InsertedLeaf(c.tree, h);
    if changes.Reorganization? {
      ReorganizationDisplaces(c.tree, h);
      assert forall d | d in changes.disconnected :: d.header.BlockHash() in Accept(c.tree, h).0.headers;
    }
  }

  lemma AbsorbOneFollowed(c: Chain, h: Header, next: Option<Checkpoint>)
    requires Followed(c.store, c.tree)
    ensures Followed(AbsorbOne(c, h, next).chain.store, AbsorbOne(c, h, next).chain.tree)
  {
    AbsorbOneParts(c, h, next);
    AbsorbOneStages(c, h, next);
    AbsorbOneDisconnects(c, h, next);
    HeaderFollows(Pending(c.store), c.tree, h);
    AcceptValid(c.tree, h);
    AcceptKeepsClosed(c.tree, h);
  }

  lemma {:induction false} AbsorbAllFollowed(c: Chain, hs: seq<Header>, next: Option<Checkpoint>)
    requires Followed(c.store, c.tree)
    ensures Followed(AbsorbAll(c, hs, next).chain.store, AbsorbAll(c, hs, next).chain.tree)
    decreases |hs|
  {
    if hs != [] {
      AbsorbOneFollowed(c, hs[0], next);
      AbsorbAllFollowed(AbsorbOne(c, hs[0], next).chain, hs[1..], next);
    }
  }

  /** A staged row stands above the origin, and is that of the index, or of the root. */
  lemma StagedRowIsAbove(s: Store, t: Tree, k: nat)
    requires Followed(s, t) && k in s.accepted
    ensures t.origin.height < k
  {
    assert Placed(t, s.accepted[k].BlockHash());
  }

  /** What agrees with the same tree above the origin agrees there. */
  lemma SameAbove(rows: map<nat, Header>, rows': map<nat, Header>, t: Tree, k: nat)
    requires RowsAgree(rows, t) && RowsAgree(rows', t) && IndexOver(t.headers, t.index)
    requires AllPlaced(t) && t.origin.height < k
    ensures k in rows ==> k in rows' && rows'[k] == rows[k]
  {
    if k in rows && k !in t.index {
      assert IsRoot(t, rows[k].BlockHash());
      assert Placed(t, rows[k].BlockHash());
    }
  }

  /** A row of the table that is disconnected stands above the origin. */
  lemma DisconnectedRowIsAbove(s: Store, t: Tree, rows: map<nat, Header>, k: nat)
    requires AllPlaced(t) && DisconnectedStored(s, t) && BaseLinks(rows, t.origin)
    requires k in rows && rows[k].BlockHash() in s.disconnected
    ensures t.origin.height < k
  {
    assert Placed(t, rows[k].BlockHash());
  }

  lemma GapDoesNotFollow(s: Store, t: Tree, rows: map<nat, Header>, k: nat)
    requires Followed(s, t)
    requires k in s.table && s.table[k].BlockHash() in s.disconnected && k !in s.accepted
    requires k in rows && rows[k] == s.table[k]
    ensures !RowsFollow(rows, t)
  {
    if RowsFollow(rows, t) {
      DisconnectedRowIsAbove(s, t, rows, k);
      SameAbove(rows, Pending(s), t, k);
    }
  }

  lemma NewRowFollows(s: Store, t: Tree, k: nat)
    requires Followed(s, t) && RowsFollow(s.table, t) && k in s.accepted
    ensures k in s.table && s.table[k] == s.accepted[k]
  {
    StagedRowIsAbove(s, t, k);
    SameAbove(Pending(s), s.table, t, k);
  }

  /** After a write, or a write that fails, the table still follows the index if and only if the
      write had nothing to lose. */
  lemma WriteFollowsIff(s: Store, t: Tree, fault: Fault)
    requires Followed(s, t)
    ensures Followed(Write(s, fault).0, t) <==> !Loses(s, fault)
  {
    var s' := Write(s, fault).0;
    FailedWriteLoses(s, fault);
    WriteKeepsPending(s, t, fault);
    assert StagedSoundly(s', t);
    if Loses(s, fault) {
      LostRowsAre(s, fault);
      if k :| k in s.table && s.table[k].BlockHash() in s.disconnected && k !in s.accepted {
        GapDoesNotFollow(s, t, Pending(s'), k);
      } else if RowsFollow(Pending(s'), t) {
        var k :| k in s.accepted && !(k in s.table && s.table[k] == s.accepted[k]);
        NewRowFollows(s, t, k);
      }
    }
  }

  lemma LostRowsAre(s: Store, fault: Fault)
    requires Loses(s, fault)
    ensures fault.DuringDelete? ==> Pending(Write(s, fault).0) == s.table + s.accepted
    ensures !fault.DuringDelete? ==> Pending(Write(s, fault).0) == s.table
  {
    assert Without(s.table, {}) == s.table;
    assert s.table + map[] == s.table;
  }

  // ---------- One message ----------

  /** The message is taken in without an error, so that it ends in a write. */
  ghost predicate Writes(c: Chain, hs: seq<Header>) {
    && hs != [] && hs[|hs| - 1].BlockHash() !in c.tree.headers && hs[|hs| - 1].BlockHash() != c.tree.tip.hash
    && SanityCheck(c.tree.net, hs) == None && AbsorbAll(c, hs, NextCheckpoint(c)).error == None
  }

  /** The write at the end of the message fails, and has rows to lose. */
  ghost predicate LosesRows(c: Chain, hs: seq<Header>, fault: Fault) {
    Writes(c, hs) && Loses(AbsorbAll(c, hs, NextCheckpoint(c)).chain.store, fault)
  }

  lemma SyncChainWrites(c: Chain, hs: seq<Header>, fault: Fault)
    ensures var (c', a) := (SyncChain(c, hs, fault).0, AbsorbAll(c, hs, NextCheckpoint(c)).chain);
            if Writes(c, hs) then c'.tree == a.tree && c'.store == Write(a.store, fault).0
            else (c'.tree == c.tree && c'.store == c.store) || (c'.tree == a.tree && c'.store == a.store)
  {
  }

  /** Whatever the headers reorganize, the table follows the index after a message if and only if
      its write loses no rows. */
  lemma SyncChainFollowsIff(c: Chain, hs: seq<Header>, fault: Fault)
    requires Followed(c.store, c.tree)
    ensures var c' := SyncChain(c, hs, fault).0;
            Followed(c'.store, c'.tree) <==> !LosesRows(c, hs, fault)
  {
    var a := AbsorbAll(c, hs, NextCheckpoint(c)).chain;
    AbsorbAllFollowed(c, hs, NextCheckpoint(c));
    SyncChainWrites(c, hs, fault);
    WriteFollowsIff(a.store, a.tree, fault);
  }

  // ---------- Whole runs ----------

  ghost predicate LosesAt(n: Client, input: Input) {
    input.HeadersMessage? && LosesRows(n.chain, input.headers, input.fault)
  }

  lemma ShapeKeepsFollowed(s: Store, t: Tree, t': Tree)
    requires SameShape(t, t') && Followed(s, t)
    ensures Followed(s, t')
  {
    SameShapeKeeps(t, t');
    ShapeKeepsRows(Pending(s), t, t');
  }

  lemma StepFollowsIff(n: Client, input: Input)
    requires Books(n) && Followed(n.chain.store, n.chain.tree)
    ensures var c := Step(n, input).0.chain; Followed(c.store, c.tree) <==> !LosesAt(n, input)
  {
    if input.HeadersMessage? {
      SyncChainFollowsIff(n.chain, input.headers, input.fault);
      SyncChainKept(n.chain, input.headers, input.fault);
      NextStatefulKept(SyncChain(n.chain, input.headers, input.fault).0);
    } else {
      OtherInputsKeepShape(n, input);
      ShapeKeepsFollowed(n.chain.store, n.chain.tree, Step(n, input).0.chain.tree);
    }
  }

  /** No write of the run loses rows. */
  ghost predicate LosslessRun(n: Client, inputs: seq<Input>)
    requires Books(n)
    decreases |inputs|
  {
    if inputs == [] then true
    else
      StepKeepsBooks(n, inputs[0]);
      !LosesAt(n, inputs[0]) && LosslessRun(Step(n, inputs[0]).0, inputs[1..])
  }

  lemma {:induction false} RunKeepsFollowed(n: Client, inputs: seq<Input>)
    requires Books(n) && Followed(n.chain.store, n.chain.tree) && LosslessRun(n, inputs)
    ensures Followed(RunAll(n, inputs).chain.store, RunAll(n, inputs).chain.tree)
    decreases |inputs|
  {
    if inputs != [] {
      StepKeepsBooks(n, inputs[0]);
      StepFollowsIff(n, inputs[0]);
      RunKeepsFollowed(Step(n, inputs[0]).0, inputs[1..]);
    }
  }

  /** After a run with any reorganizations whose writes lost nothing, the table loads over every
      range, once what is staged is written, if and only if the height index is exact. */
  lemma RunLoadsIff(n: Client, inputs: seq<Input>)
    requires Books(n) && Followed(n.chain.store, n.chain.tree) && LosslessRun(n, inputs)
    ensures var c := RunAll(n, inputs).chain;
            RowsFollow(Pending(c.store), c.tree) && (LoadsEverywhere(Pending(c.store)) <==> Exact(c.tree))
  {
    RunKeepsFollowed(n, inputs);
    LoadsIffExact(Pending(RunAll(n, inputs).chain.store), RunAll(n, inputs).chain.tree);
  }

  /** If the index ends exact, that table is the active chain. */
  lemma RunTableIsChain(n: Client, inputs: seq<Input>)
    requires Books(n) && Followed(n.chain.store, n.chain.tree) && LosslessRun(n, inputs)
    requires Exact(RunAll(n, inputs).chain.tree)
    ensures TableIsChain(Pending(RunAll(n, inputs).chain.store), RunAll(n, inputs).chain.tree)
  {
    RunKeepsFollowed(n, inputs);
    AgreeingTableIsChain(Pending(RunAll(n, inputs).chain.store), RunAll(n, inputs).chain.tree);
  }

  /** After a message without error whose write works, the table itself loads over every range if
      and only if the index is exact, and then it is the active chain. */
  lemma WrittenTableLoadsIff(c: Chain, hs: seq<Header>)
    requires Followed(c.store, c.tree) && c.store.accepted == map[] && c.store.disconnected == {}
    requires SyncChain(c, hs, NoFault).1 == None
    ensures var c' := SyncChain(c, hs, NoFault).0;
            (LoadsEverywhere(c'.store.table) <==> Exact(c'.tree)) && (Exact(c'.tree) ==> TableIsChain(c'.store.table, c'.tree))
  {
    var c' := SyncChain(c, hs, NoFault).0;
    SyncChainFollowsIff(c, hs, NoFault);
    SyncChainFlushes(c, hs);
    LoadsIffExact(c'.store.table, c'.tree);
    if Exact(c'.tree) {
      AgreeingTableIsChain(c'.store.table, c'.tree);
    }
  }

  // ---------- Starting ----------

  /** A tree in agreement with a clean store is one to start from. */
  lemma PersistsIsFollowed(c: Chain)
    requires Persists(c) && c.store.accepted == map[] && c.store.disconnected == {}
    ensures Followed(c.store, c.tree)
  {
    ExactIsClosed(c.tree);
  }

  // ---------- The next start ----------

  /** A load reports corruption if and only if two neighbouring rows above the base do not link. */
  lemma CorruptionIff(c: Chain, hi: nat)
    ensures LoadHeaders(c, hi).1 == Some(DatabaseCorruption)
       <==> !LinkedBetween(c.store.table, BaseTree(c).tip.height + 1, hi)
  {
    LoadRowsNotCorrupt(BaseTree(c), c.checkpoints, c.store.table, BaseTree(c).tip.height + 1, hi);
  }

  lemma {:induction false} LoadRowsNotCorrupt(t: Tree, cps: seq<Checkpoint>, table: map<nat, Header>, k: nat, hi: nat)
    ensures LoadRows(t, cps, table, k, hi).error != Some(DatabaseCorruption)
    decreases hi - k
  {
    if k < hi {
      if k in table {
        var l := RowLoaded(t, cps, k, table[k]);
        LoadRowsNotCorrupt(l.tree, l.checkpoints, table, k + 1, hi);
      } else {
        LoadRowsNotCorrupt(t, cps, table, k + 1, hi);
      }
    }
  }

  /** A client that starts on the rows left by a reorganization to a shorter chain finds them
      corrupt if and only if it starts from below the new tip. */
  lemma ShortReorganizationCorruptsIff(rows: map<nat, Header>, t: Tree, h: Header, c: Chain, hi: nat)
    requires Valid(t) && Exact(t) && RowsFollow(rows, t) && Reorganizes(t, h) && !TallEnough(t, h)
    requires c.store.table == ReorganizedRows(rows, t, h) && Accept(t, h).0.tip.height + 1 < hi
    ensures LoadHeaders(c, hi).1 == Some(DatabaseCorruption) <==> BaseTree(c).tip.height < Accept(t, h).0.tip.height
  {
    CorruptionIff(c, hi);
    ShortReorganizationLoadsIff(rows, t, h, BaseTree(c).tip.height + 1, hi);
  }
}
