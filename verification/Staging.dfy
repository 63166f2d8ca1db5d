/** Staging header rows for one write, against applying each change to the table at once, over
    whole runs: no condition on reorganizations is needed. */
module Staging {
  import opened Hashes
  import opened Graph
  import opened GraphInvariant
  import opened GraphIndex
  import opened HeaderStores
  import opened ChainState
  import opened ChainPersistence
  import opened ChainInvariant
  import opened FilterHeaderChain
  import opened NodeState
  import opened NodeRuns

  // ---------- One header ----------

  /** Every staged row has a stored header, at its own height. */
  ghost predicate StagedAtHeights(s: Store, t: Tree) {
    forall k | k in s.accepted ::
      s.accepted[k].BlockHash() in t.headers && t.headers[s.accepted[k].BlockHash()].height == k
  }

  /** What is staged for one header. */
  ghost function HeaderChange(t: Tree, h: Header): seq<HeaderChanges> {
    match Accept(t, h).1
    case Accepted(at) => [Connected(at)]
    case Reorganization(accepted, disconnected) => [Reorganized(accepted, disconnected)]
    case _ => []
  }

  lemma AcceptedRows(t: Tree, h: Header)
    requires Valid(t) && Reorganizes(t, h)
    ensures var (t', changes) := Accept(t, h);
            forall k | k in Rows(changes.accepted) ::
              var x := Rows(changes.accepted)[k].BlockHash(); x in t'.headers && t'.headers[x].height == k
  {
    var (t', changes) := Accept(t, h);
    AcceptValid(t, h);
    ReorganizationRows(t, h);
    forall k | k in Rows(changes.accepted)
      ensures var x := Rows(changes.accepted)[k].BlockHash(); x in t'.headers && t'.headers[x].height == k
    {
      assert k in RowsOf(t'.headers, t'.index);
      assert Placed(t', t'.index[k]);
    }
  }

  /** No reorganization of a tree uncovers an older row: whatever it drops, it replaces. */
  lemma ReorganizationUncoversNothing(s: Store, t: Tree, h: Header)
    requires Valid(t) && StagedAtHeights(s, t) && Reorganizes(t, h)
    ensures !Uncovers(s, Reorganized(Accept(t, h).1.accepted, Accept(t, h).1.disconnected))
  {
    var (t', changes) := Accept(t, h);
    ReorganizationDisplaces(t, h);
    InsertedLeaf(t, h);
    forall k | k in s.accepted && s.accepted[k].BlockHash() in HashesOf(changes.disconnected)
      ensures k in Rows(changes.accepted)
    {
      var d :| d in changes.disconnected && d.header.BlockHash() == s.accepted[k].BlockHash();
      assert d.height in Heights(changes.disconnected);
    }
  }

  lemma AbsorbOneStages(c: Chain, h: Header, next: Option<Checkpoint>)
    requires Valid(c.tree) && StagedAtHeights(c.store, c.tree)
    ensures var c' := AbsorbOne(c, h, next).chain;
            && StagedAtHeights(c'.store, c'.tree)
            && Pending(c'.store) == EagerAll(Pending(c.store), HeaderChange(c.tree, h))
  {
    var changes := Accept(c.tree, h).1;
    AbsorbOneParts(c, h, next);
    InsertedLeaf(c.tree, h);
    if changes.Reorganization? {
      var change := Reorganized(changes.accepted, changes.disconnected);
      ReorganizationUncoversNothing(c.store, c.tree, h);
      StageIsEagerIff(c.store, change);
      AcceptedRows(c.tree, h);
      OneEager(Pending(c.store), change);
    } else if changes.Accepted? {
      ConnectedIsStored(c.tree, h);
      StageIsEagerIff(c.store, Connected(changes.connectedAt));
      OneEager(Pending(c.store), Connected(changes.connectedAt));
    }
  }

  lemma ConnectedIsStored(t: Tree, h: Header)
    requires Valid(t) && Accept(t, h).1.Accepted?
    ensures var (t', changes) := Accept(t, h);
            var x := changes.connectedAt.header.BlockHash();
            x in t'.headers && t'.headers[x].height == changes.connectedAt.height
  {
  }

  lemma OneEager(table: map<nat, Header>, change: HeaderChanges)
    ensures EagerAll(table, [change]) == Eager(table, change)
  {
    assert [change][1..] == [];
  }

  lemma {:induction false} EagerAllSplits(table: map<nat, Header>, cs: seq<HeaderChanges>, ds: seq<HeaderChanges>)
    ensures EagerAll(table, cs + ds) == EagerAll(EagerAll(table, cs), ds)
    decreases |cs|
  {
    if cs == [] {
      assert cs + ds == ds;
    } else {
      assert (cs + ds)[1..] == cs[1..] + ds;
      EagerAllSplits(Eager(table, cs[0]), cs[1..], ds);
    }
  }

  // ---------- One message ----------

  ghost function BatchChanges(c: Chain, hs: seq<Header>, next: Option<Checkpoint>): seq<HeaderChanges>
    decreases |hs|
  {
    if hs == [] then []
    else
      var a := AbsorbOne(c, hs[0], next);
      HeaderChange(c.tree, hs[0]) + if a.error.Some? then [] else BatchChanges(a.chain, hs[1..], next)
  }

  lemma {:induction false} AbsorbAllStages(c: Chain, hs: seq<Header>, next: Option<Checkpoint>)
    requires Valid(c.tree) && StagedAtHeights(c.store, c.tree)
    ensures var c' := AbsorbAll(c, hs, next).chain;
            && StagedAtHeights(c'.store, c'.tree)
            && Pending(c'.store) == EagerAll(Pending(c.store), BatchChanges(c, hs, next))
    decreases |hs|
  {
    if hs != [] {
      var a := AbsorbOne(c, hs[0], next);
      AbsorbOneStages(c, hs[0], next);
      if a.error.None? {
        AbsorbOneRequest(c, hs[0], next);
        AcceptValid(c.tree, hs[0]);
        AbsorbAllStages(a.chain, hs[1..], next);
        EagerAllSplits(Pending(c.store), HeaderChange(c.tree, hs[0]), BatchChanges(a.chain, hs[1..], next));
      } else {
        assert BatchChanges(c, hs, next) == HeaderChange(c.tree, hs[0]);
      }
    }
  }

  /** What a message stages, if it is taken in at all. */
  ghost function MessageChanges(c: Chain, hs: seq<Header>): seq<HeaderChanges> {
    if hs != [] && hs[|hs| - 1].BlockHash() !in c.tree.headers && hs[|hs| - 1].BlockHash() != c.tree.tip.hash
       && SanityCheck(c.tree.net, hs) == None
    then BatchChanges(c, hs, NextCheckpoint(c)) else []
  }

  /** The write goes through, or fails before it takes anything. */
  ghost predicate KeepsStaged(fault: Fault) {
    fault == NoFault || fault == AtBegin
  }

  lemma WriteKeepsPending(s: Store, t: Tree, fault: Fault)
    requires StagedAtHeights(s, t)
    ensures StagedAtHeights(Write(s, fault).0, t)
    ensures KeepsStaged(fault) ==> Pending(Write(s, fault).0) == Pending(s)
  {
    assert Without(Pending(s), {}) == Pending(s);
  }

  /** After any batch, with any reorganizations, with or without an early error, the table that
      a write will leave is the one that eager changes would. */
  lemma SyncChainStages(c: Chain, hs: seq<Header>, fault: Fault)
    requires Valid(c.tree) && StagedAtHeights(c.store, c.tree)
    ensures var c' := SyncChain(c, hs, fault).0;
            && StagedAtHeights(c'.store, c'.tree)
            && (KeepsStaged(fault) ==> Pending(c'.store) == EagerAll(Pending(c.store), MessageChanges(c, hs)))
  {
    var a := AbsorbAll(c, hs, NextCheckpoint(c)).chain;
    AbsorbAllStages(c, hs, NextCheckpoint(c));
    WriteKeepsPending(a.store, a.tree, fault);
    SyncChainStore(c, hs, fault);
  }

  lemma SyncChainStore(c: Chain, hs: seq<Header>, fault: Fault)
    ensures var (c', a) := (SyncChain(c, hs, fault).0, AbsorbAll(c, hs, NextCheckpoint(c)).chain);
            || (c'.tree == c.tree && c'.store == c.store && MessageChanges(c, hs) == [])
            || (c'.tree == a.tree && MessageChanges(c, hs) == BatchChanges(c, hs, NextCheckpoint(c))
                && (c'.store == a.store || c'.store == Write(a.store, fault).0))
  {
  }

  // ---------- Whole runs ----------

  lemma SameHeightsStaged(s: Store, t: Tree, t': Tree)
    requires StagedAtHeights(s, t)
    requires forall x | x in t.headers :: x in t'.headers && t'.headers[x].height == t.headers[x].height
    ensures StagedAtHeights(s, t')
  {
  }

  ghost function InputChanges(n: Client, input: Input): seq<HeaderChanges> {
    if input.HeadersMessage? then MessageChanges(n.chain, input.headers) else []
  }

  lemma HandleHeadersStages(n: Client, hs: seq<Header>, fault: Fault)
    requires Books(n) && StagedAtHeights(n.chain.store, n.chain.tree)
    ensures var c := HandleHeaders(n, hs, fault).0.chain;
            && StagedAtHeights(c.store, c.tree)
            && (KeepsStaged(fault) ==>
                  Pending(c.store) == EagerAll(Pending(n.chain.store), MessageChanges(n.chain, hs)))
  {
    SyncChainStages(n.chain, hs, fault);
    SyncChainKept(n.chain, hs, fault);
    NextStatefulKept(SyncChain(n.chain, hs, fault).0);
  }

  lemma StepStages(n: Client, input: Input)
    requires Books(n) && StagedAtHeights(n.chain.store, n.chain.tree)
    ensures var c := Step(n, input).0.chain;
            && StagedAtHeights(c.store, c.tree)
            && ((input.HeadersMessage? ==> KeepsStaged(input.fault)) ==>
                  Pending(c.store) == EagerAll(Pending(n.chain.store), InputChanges(n, input)))
  {
    if input.HeadersMessage? {
      HandleHeadersStages(n, input.headers, input.fault);
    } else {
      OtherInputsKeepShape(n, input);
      SameHeightsStaged(n.chain.store, n.chain.tree, Step(n, input).0.chain.tree);
    }
  }

  ghost function RunChanges(n: Client, inputs: seq<Input>): seq<HeaderChanges>
    requires Books(n)
    decreases |inputs|
  {
    if inputs == [] then []
    else
      StepKeepsBooks(n, inputs[0]);
      InputChanges(n, inputs[0]) + RunChanges(Step(n, inputs[0]).0, inputs[1..])
  }

  ghost predicate GoodWrites(inputs: seq<Input>) {
    forall i | 0 <= i < |inputs| && inputs[i].HeadersMessage? :: KeepsStaged(inputs[i].fault)
  }

  lemma {:induction false} RunStages(n: Client, inputs: seq<Input>)
    requires Books(n) && StagedAtHeights(n.chain.store, n.chain.tree) && GoodWrites(inputs)
    ensures Pending(RunAll(n, inputs).chain.store) == EagerAll(Pending(n.chain.store), RunChanges(n, inputs))
    decreases |inputs|
  {
    if inputs != [] {
      StepKeepsBooks(n, inputs[0]);
      StepStages(n, inputs[0]);
      RunStages(Step(n, inputs[0]).0, inputs[1..]);
      EagerAllSplits(Pending(n.chain.store), InputChanges(n, inputs[0]), RunChanges(Step(n, inputs[0]).0, inputs[1..]));
    }
  }

  /** Over every run from the start, shorter reorganizations, disconnected and reaccepted headers
      and early errors included, the table that a write leaves is the one that applying each
      change at once to the loaded table would give. */
  lemma StagingIsEager(start: Client, inputs: seq<Input>)
    requires Started(start) && Books(start) && GoodWrites(inputs)
    ensures var s := RunAll(start, inputs).chain.store;
            && Pending(s) == EagerAll(start.chain.store.table, RunChanges(start, inputs))
            && Write(s, NoFault).0.table == Pending(s)
  {
    StartedStore(start);
    assert Pending(start.chain.store) == start.chain.store.table;
    RunStages(start, inputs);
  }
}
