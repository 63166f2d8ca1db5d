/** What a message of headers does, told from the headers themselves: when it is refused, where it
    stops, and what it leaves of checkpoints and requests. */
module HeaderMessages {
  import opened Commons
  import opened Hashes
  import opened Graph
  import opened GraphInvariant
  import opened GraphIndex
  import opened GraphRuns
  import opened GraphAnswers
  import opened FilterHeaderChain
  import opened ChainState
  import opened ChainInvariant
  import opened NodeRuns
  import HeaderStores
  import BlockQueues
  import FilterHeaders

  // ---------- Messages that are refused as a whole ----------

  /** Some header does not stand on the one before. */
  ghost predicate Breaks(hs: seq<Header>) {
    exists i, j :: 0 <= i < |hs| && j == i + 1 && j < |hs| && hs[j].prev != hs[i].BlockHash()
  }

  ghost predicate LacksWork(net: Network, hs: seq<Header>) {
    exists i :: 0 <= i < |hs| && !net.validPow(hs[i])
  }

  /** On a network that has no blocks of minimal difficulty, some bits change too much. */
  ghost predicate Leaps(net: Network, hs: seq<Header>) {
    !net.allowMinDifficulty
    && exists i, j :: 0 <= i < |hs| && j == i + 1 && j < |hs| && !net.transitionOk(hs[i].bits, hs[j].bits)
  }

  /** The last header is not known yet. */
  ghost predicate BringsNews(c: Chain, hs: seq<Header>) {
    hs != [] && hs[|hs| - 1].BlockHash() !in c.tree.headers && hs[|hs| - 1].BlockHash() != c.tree.tip.hash
  }

  /** An empty message is an error, and one that ends in a known header is ignored. */
  lemma NoNews(c: Chain, hs: seq<Header>, fault: HeaderStores.Fault)
    requires !BringsNews(c, hs)
    ensures SyncChain(c, hs, fault) == (c, if hs == [] then Some(EmptyMessage) else None)
  {
  }

  /** Headers that do not connect, that lack work or whose bits leap are refused, with the error of
      the first of these, and nothing is kept of the message; any other is taken in header by
      header. */
  lemma RefusedIff(c: Chain, hs: seq<Header>, fault: HeaderStores.Fault)
    requires BringsNews(c, hs)
    ensures var (c', error) := SyncChain(c, hs, fault);
            && (Breaks(hs) ==> c' == c && error == Some(HeadersNotConnected))
            && (!Breaks(hs) && LacksWork(c.tree.net, hs) ==> c' == c && error == Some(InvalidHeaderWork))
            && (!Breaks(hs) && !LacksWork(c.tree.net, hs) && Leaps(c.tree.net, hs) ==> c' == c && error == Some(InvalidBits))
            && (!Breaks(hs) && !LacksWork(c.tree.net, hs) && !Leaps(c.tree.net, hs) ==>
                  c'.tree == AbsorbAll(c, hs, NextCheckpoint(c)).chain.tree
                  && error == AbsorbAll(c, hs, NextCheckpoint(c)).error)
  {
    assert Connected(hs) <==> !Breaks(hs);
    assert BitsAdhere(c.tree.net, hs) <==> !Leaps(c.tree.net, hs);
  }

  // ---------- Header by header ----------

  /** The tree that the first `j` headers leave. */
  ghost function Before(t: Tree, hs: seq<Header>, j: nat): Tree
    requires j <= |hs|
  {
    AcceptAll(t, hs[..j])
  }

  /** The header lands on the tip at the height of the checkpoint. */
  ghost predicate LandsAt(t: Tree, h: Header, next: Option<Checkpoint>) {
    next.Some? && Accept(t, h).1.Accepted? && t.tip.height + 1 == next.value.height
  }

  ghost predicate Meets(t: Tree, h: Header, next: Option<Checkpoint>) {
    LandsAt(t, h, next) && h.BlockHash() == next.value.hash
  }

  ghost predicate Misses(t: Tree, h: Header, next: Option<Checkpoint>) {
    LandsAt(t, h, next) && h.BlockHash() != next.value.hash
  }

  /** The header is refused, or is not the one of the checkpoint. */
  ghost predicate Stops(t: Tree, h: Header, next: Option<Checkpoint>) {
    Accept(t, h).1.Rejected? || Misses(t, h, next)
  }

  ghost function StopError(t: Tree, h: Header): HeaderSyncError {
    var answer := Accept(t, h).1;
    if !answer.Rejected? then InvalidCheckpoint
    else if answer.reason == UnknownPrevHash(h.prev) then FloatingHeaders else InvalidBits
  }

  /** None of the first `n` headers stops the batch. */
  ghost predicate NoneStops(t: Tree, hs: seq<Header>, next: Option<Checkpoint>, n: nat)
    requires n <= |hs|
  {
    forall j | 0 <= j < n :: !Stops(Before(t, hs, j), hs[j], next)
  }

  lemma NoneStopsNext(t: Tree, hs: seq<Header>, next: Option<Checkpoint>, n: nat)
    requires hs != [] && n <= |hs[1..]|
    ensures NoneStops(t, hs, next, n + 1)
       <==> !Stops(t, hs[0], next) && NoneStops(Accept(t, hs[0]).0, hs[1..], next, n)
  {
    var t', rest := Accept(t, hs[0]).0, hs[1..];
    assert Before(t, hs, 0) == t;
    forall j | 0 <= j < n ensures Before(t, hs, j + 1) == Before(t', rest, j) && hs[j + 1] == rest[j] {
      BeforeNext(t, hs, j);
    }
    if NoneStops(t, hs, next, n + 1) {
      forall j | 0 <= j < n ensures !Stops(Before(t', rest, j), rest[j], next) {
        assert !Stops(Before(t, hs, j + 1), hs[j + 1], next);
      }
    }
    if !Stops(t, hs[0], next) && NoneStops(t', rest, next, n) {
      forall j | 0 <= j < n + 1 ensures !Stops(Before(t, hs, j), hs[j], next) {
        if 0 < j {
          assert !Stops(Before(t', rest, j - 1), rest[j - 1], next);
        }
      }
    }
  }

  lemma BeforeNext(t: Tree, hs: seq<Header>, j: nat)
    requires hs != [] && j <= |hs[1..]|
    ensures Before(t, hs, j + 1) == Before(Accept(t, hs[0]).0, hs[1..], j)
  {
    assert hs[..j + 1][1..] == hs[1..][..j] && hs[..j + 1][0] == hs[0];
  }

  lemma OneHeaderStops(c: Chain, h: Header, next: Option<Checkpoint>)
    requires Valid(c.tree)
    ensures var a := AbsorbOne(c, h, next);
            && a.chain.tree == Accept(c.tree, h).0
            && a.error == (if Stops(c.tree, h, next) then Some(StopError(c.tree, h)) else None)
            && a.chain.checkpoints == (if Meets(c.tree, h, next) then PopFront(c.checkpoints) else c.checkpoints)
            && a.reorged == Reorganizes(c.tree, h)
  {
    AnswerIff(c.tree, h);
  }

  /** A batch goes on to the first header that stops it, which is still taken by the tree; its
      error is that header's. */
  lemma {:induction false} BatchStops(c: Chain, hs: seq<Header>, next: Option<Checkpoint>) returns (stop: nat)
    requires Valid(c.tree)
    ensures stop <= |hs| && NoneStops(c.tree, hs, next, stop)
    ensures stop < |hs| ==> Stops(Before(c.tree, hs, stop), hs[stop], next)
    ensures var a := AbsorbAll(c, hs, next);
            && a.chain.tree == Before(c.tree, hs, if stop < |hs| then stop + 1 else stop)
            && a.error == (if stop < |hs| then Some(StopError(Before(c.tree, hs, stop), hs[stop])) else None)
    decreases |hs|
  {
    stop := 0;
    if hs != [] {
      var a := AbsorbOne(c, hs[0], next);
      OneHeaderStops(c, hs[0], next);
      BeforeNext(c.tree, hs, 0);
      if a.error == None {
        AcceptValid(c.tree, hs[0]);
        var rest := BatchStops(a.chain, hs[1..], next);
        stop := rest + 1;
        BeforeNext(c.tree, hs, rest);
        if rest < |hs[1..]| {
          BeforeNext(c.tree, hs, rest + 1);
        }
        NoneStopsNext(c.tree, hs, next, rest);
      }
    }
  }

  ghost predicate Reorganized(t: Tree, hs: seq<Header>) {
    exists j :: 0 <= j < |hs| && Reorganizes(Before(t, hs, j), hs[j])
  }

  lemma ReorganizedNext(t: Tree, hs: seq<Header>)
    requires hs != []
    ensures Reorganized(t, hs) <==> Reorganizes(t, hs[0]) || Reorganized(Accept(t, hs[0]).0, hs[1..])
  {
    var t', rest := Accept(t, hs[0]).0, hs[1..];
    assert Before(t, hs, 0) == t;
    if Reorganized(t, hs) {
      var j :| 0 <= j < |hs| && Reorganizes(Before(t, hs, j), hs[j]);
      if 0 < j {
        BeforeNext(t, hs, j - 1);
        assert Reorganizes(Before(t', rest, j - 1), rest[j - 1]);
      }
    }
    if Reorganized(t', rest) {
      var j :| 0 <= j < |rest| && Reorganizes(Before(t', rest, j), rest[j]);
      BeforeNext(t, hs, j);
      assert Reorganizes(Before(t, hs, j + 1), hs[j + 1]);
    }
  }

  lemma {:induction false} BatchReorganizesIff(c: Chain, hs: seq<Header>, next: Option<Checkpoint>)
    requires Valid(c.tree) && AbsorbAll(c, hs, next).error == None
    ensures AbsorbAll(c, hs, next).reorged <==> Reorganized(c.tree, hs)
    decreases |hs|
  {
    if hs != [] {
      OneHeaderStops(c, hs[0], next);
      AcceptValid(c.tree, hs[0]);
      BatchReorganizesIff(AbsorbOne(c, hs[0], next).chain, hs[1..], next);
      ReorganizedNext(c.tree, hs);
    }
  }

  /** A message that is taken in to its end clears the outstanding request for filter headers and
      the votes on it if and only if one of its headers reorganized; it touches no other request. */
  lemma MessageClearsIff(c: Chain, hs: seq<Header>, fault: HeaderStores.Fault)
    requires Valid(c.tree) && BringsNews(c, hs) && SyncChain(c, hs, fault).1 == None
    ensures SyncChain(c, hs, fault).0.request
         == if Reorganized(c.tree, hs)
            then RequestState(c.request.lastFilterRequest, None, FilterHeaders.Agreement(None, 0, c.request.agreement.required))
            else c.request
  {
    RefusedIff(c, hs, fault);
    BatchReorganizesIff(c, hs, NextCheckpoint(c));
    AbsorbAllOrigin(c, hs, NextCheckpoint(c));
  }

  // ---------- Checkpoints ----------

  /** The batch gets to a header that is the one of the checkpoint. */
  ghost predicate ReachesCheckpoint(t: Tree, hs: seq<Header>, next: Option<Checkpoint>) {
    exists j :: 0 <= j < |hs| && NoneStops(t, hs, next, j) && Meets(Before(t, hs, j), hs[j], next)
  }

  lemma ReachesNext(t: Tree, hs: seq<Header>, next: Option<Checkpoint>)
    requires hs != []
    ensures ReachesCheckpoint(t, hs, next)
       <==> Meets(t, hs[0], next) || (!Stops(t, hs[0], next) && ReachesCheckpoint(Accept(t, hs[0]).0, hs[1..], next))
  {
    var t', rest := Accept(t, hs[0]).0, hs[1..];
    assert Before(t, hs, 0) == t;
    if ReachesCheckpoint(t, hs, next) {
      var j :| 0 <= j < |hs| && NoneStops(t, hs, next, j) && Meets(Before(t, hs, j), hs[j], next);
      if 0 < j {
        BeforeNext(t, hs, j - 1);
        NoneStopsNext(t, hs, next, j - 1);
        assert Meets(Before(t', rest, j - 1), rest[j - 1], next);
      }
    }
    if Meets(t, hs[0], next) {
      assert NoneStops(t, hs, next, 0);
    } else if !Stops(t, hs[0], next) && ReachesCheckpoint(t', rest, next) {
      var j :| 0 <= j < |rest| && NoneStops(t', rest, next, j) && Meets(Before(t', rest, j), rest[j], next);
      BeforeNext(t, hs, j);
      NoneStopsNext(t, hs, next, j);
      assert Meets(Before(t, hs, j + 1), hs[j + 1], next);
    }
  }

  ghost predicate StoredAt(t: Tree, x: Hash, height: nat) {
    x in t.headers && t.headers[x].height == height
  }

  /** A checkpoint whose header is stored is not passed again. */
  lemma {:induction false} PassedOnce(c: Chain, hs: seq<Header>, next: Option<Checkpoint>, height: nat)
    requires Valid(c.tree) && next.Some? && StoredAt(c.tree, next.value.hash, height)
    ensures AbsorbAll(c, hs, next).chain.checkpoints == c.checkpoints
    ensures StoredAt(AbsorbAll(c, hs, next).chain.tree, next.value.hash, height)
    decreases |hs|
  {
    if hs != [] {
      AnswerIff(c.tree, hs[0]);
      OneHeaderStops(c, hs[0], next);
      InsertedLeaf(c.tree, hs[0]);
      AcceptValid(c.tree, hs[0]);
      PassedOnce(AbsorbOne(c, hs[0], next).chain, hs[1..], next, height);
    }
  }

  lemma MetIsStored(t: Tree, h: Header, next: Option<Checkpoint>)
    requires Valid(t) && Meets(t, h, next)
    ensures StoredAt(Accept(t, h).0, next.value.hash, next.value.height) && !Stops(t, h, next)
  {
    AnswerIff(t, h);
  }

  /** A batch passes the checkpoint that is due if and only if it gets to that header, which is
      then stored at its height. */
  lemma {:induction false} BatchPassesIff(c: Chain, hs: seq<Header>, next: Option<Checkpoint>)
    requires Valid(c.tree)
    ensures var c' := AbsorbAll(c, hs, next).chain;
            if ReachesCheckpoint(c.tree, hs, next)
            then c'.checkpoints == PopFront(c.checkpoints) && StoredAt(c'.tree, next.value.hash, next.value.height)
            else c'.checkpoints == c.checkpoints
    decreases |hs|
  {
    if hs != [] {
      ReachesNext(c.tree, hs, next);
      OneHeaderStops(c, hs[0], next);
      AcceptValid(c.tree, hs[0]);
      var a := AbsorbOne(c, hs[0], next);
      if Meets(c.tree, hs[0], next) {
        MetIsStored(c.tree, hs[0], next);
        PassedOnce(a.chain, hs[1..], next, next.value.height);
      } else if !Stops(c.tree, hs[0], next) {
        BatchPassesIff(a.chain, hs[1..], next);
      }
    }
  }

  /** So does a message that is taken in. */
  lemma MessagePassesIff(c: Chain, hs: seq<Header>, fault: HeaderStores.Fault)
    requires Valid(c.tree) && BringsNews(c, hs) && !Breaks(hs) && !LacksWork(c.tree.net, hs) && !Leaps(c.tree.net, hs)
    ensures var c' := SyncChain(c, hs, fault).0;
            if ReachesCheckpoint(c.tree, hs, NextCheckpoint(c))
            then c.checkpoints != [] && c'.checkpoints == c.checkpoints[1..]
                 && StoredAt(c'.tree, c.checkpoints[0].hash, c.checkpoints[0].height)
            else c'.checkpoints == c.checkpoints
  {
    RefusedIff(c, hs, fault);
    BatchPassesIff(c, hs, NextCheckpoint(c));
    MessageCheckpoints(c, hs, fault);
  }

  lemma MessageCheckpoints(c: Chain, hs: seq<Header>, fault: HeaderStores.Fault)
    ensures var c' := SyncChain(c, hs, fault).0;
            c' == c || c'.checkpoints == AbsorbAll(c, hs, NextCheckpoint(c)).chain.checkpoints
    ensures BringsNews(c, hs) && !Breaks(hs) && !LacksWork(c.tree.net, hs) && !Leaps(c.tree.net, hs) ==>
              SyncChain(c, hs, fault).0.checkpoints == AbsorbAll(c, hs, NextCheckpoint(c)).chain.checkpoints
  {
    if BringsNews(c, hs) {
      RefusedIff(c, hs, fault);
    }
  }

  /** The header that misses the checkpoint is refused with an error, and is the tip nevertheless. */
  lemma MissedHeaderIsTip(c: Chain, h: Header, next: Option<Checkpoint>)
    requires Valid(c.tree) && Misses(c.tree, h, next)
    ensures var a := AbsorbOne(c, h, next);
            a.error == Some(InvalidCheckpoint) && a.chain.tree.tip.hash == h.BlockHash() && h.BlockHash() in a.chain.tree.headers
  {
    AnswerIff(c.tree, h);
    assert Accept(c.tree, h) == ExtendTip(c.tree, h);
  }

  /** A message of two headers at the heights of two checkpoints, of which the second has another
      hash, is taken in without an error: only the checkpoint due at first is compared. */
  lemma SecondCheckpointIsPassedOver(c: Chain, h1: Header, h2: Header, fault: HeaderStores.Fault)
    requires c.tree == FromTip(c.tree.net, Tip(Anchor(0), 0, None)) && h1.prev == Anchor(0) && h2.prev == h1.BlockHash()
    requires !LacksWork(c.tree.net, [h1, h2]) && !Leaps(c.tree.net, [h1, h2]) && c.tree.net.noPowRetargeting
    requires |c.checkpoints| == 2 && c.checkpoints[0] == Checkpoint(1, h1.BlockHash())
    requires c.checkpoints[1].height == 2 && c.checkpoints[1].hash != h2.BlockHash()
    ensures var (c', error) := SyncChain(c, [h1, h2], fault);
            && error == None && c'.checkpoints == [c.checkpoints[1]]
            && c'.tree.tip.height == 2 && c'.tree.tip.hash == h2.BlockHash()
  {
    var next, hs := NextCheckpoint(c), [h1, h2];
    assert Depth(h1.BlockHash()) == 1 && Depth(h2.BlockHash()) == 2;
    assert hs[1..] == [h2] && [h2][1..] == [] && hs[|hs| - 1] == h2;
    assert Accept(c.tree, h1) == ExtendTip(c.tree, h1);
    var a1 := AbsorbOne(c, h1, next);
    assert Accept(a1.chain.tree, h2) == ExtendTip(a1.chain.tree, h2);
    var a2 := AbsorbOne(a1.chain, h2, next);
    assert AbsorbAll(a2.chain, [], next) == Absorbed(a2.chain, None, false);
    assert AbsorbAll(a1.chain, [h2], next).error == None && AbsorbAll(a1.chain, [h2], next).chain == a2.chain;
    assert AbsorbAll(c, hs, next).error == None && AbsorbAll(c, hs, next).chain == a2.chain;
    assert !Breaks(hs);
    RefusedIff(c, hs, fault);
    MessageCheckpoints(c, hs, fault);
  }

  // ---------- What the client is told of a reorganization ----------

  lemma {:induction false} ReportIsWalk(t: Tree, x: Hash, f: Hash)
    requires AllPlaced(t) && x in t.headers && f in t.headers && Descends(x, f)
    ensures |Report(t.headers, x, f)| == t.headers[x].height - t.headers[f].height
    ensures forall i | 0 <= i < |Report(t.headers, x, f)| ::
              var y := Report(t.headers, x, f)[i].header.BlockHash();
              Descends(x, y) && StoredAt(t, y, t.headers[x].height - i) && Report(t.headers, x, f)[i].height == t.headers[x].height - i
    decreases x
  {
    assert Placed(t, x) && Placed(t, f);
    if x != f {
      DescendsDepth(x.header.prev, f);
      AncestorsAreStored(t, x.header.prev, f);
      assert x.header.prev in t.headers;
      assert Placed(t, x.header.prev);
      ReportIsWalk(t, x.header.prev, f);
    } else {
      assert Report(t.headers, x, f) == [];
    }
  }

  ghost predicate Listed(list: seq<Indexed>, x: Hash) {
    exists i :: 0 <= i < |list| && list[i].header.BlockHash() == x
  }

  /** Each header in the list is one above the one before. */
  ghost predicate Ascending(list: seq<Indexed>) {
    forall i, j | 0 <= i < j < |list| :: list[j].height == list[i].height + (j - i)
  }

  /** The active headers that a reorganization gives up are those above the fork. */
  lemma LeftIsAboveFork(t: Tree, t': Tree, f: Hash, x: Hash)
    requires AllPlaced(t) && Active(t, x) && Active(t, f) && Descends(t'.tip.hash, f) && f == Meet(t'.tip.hash, t.tip.hash)
    ensures Descends(t'.tip.hash, x) <==> t.headers[x].height <= t.headers[f].height
  {
    assert Placed(t, x) && Placed(t, f);
    if t.headers[x].height <= t.headers[f].height {
      AncestorsAreOrdered(t.tip.hash, x, f);
      DescendsTransitive(t'.tip.hash, f, x);
    } else if Descends(t'.tip.hash, x) {
      MeetIsDeepestCommonAncestor(t'.tip.hash, t.tip.hash, x);
      DescendsDepth(f, x);
    }
  }

  /** The list is the active chain down to above `f`, newest first. */
  ghost predicate PathTo(t: Tree, list: seq<Indexed>, f: Hash) {
    && Active(t, f) && |list| == t.tip.height - t.headers[f].height
    && forall i | 0 <= i < |list| ::
         && list[i].height == t.tip.height - i && StoredAt(t, list[i].header.BlockHash(), t.tip.height - i)
         && Descends(t.tip.hash, list[i].header.BlockHash())
  }

  lemma DisconnectedIsPath(t: Tree, h: Header)
    requires Valid(t) && Exact(t) && Reorganizes(t, h) && TallEnough(t, h)
    ensures var t' := Accept(t, h).0;
            PathTo(t, Accept(t, h).1.disconnected, Meet(t'.tip.hash, t.tip.hash)) && Active(t', Meet(t'.tip.hash, t.tip.hash))
  {
    ReorganizationReport(t, h);
    AcceptValid(t, h);
    InsertedLeaf(t, h);
    var t' := Accept(t, h).0;
    var f, list := Meet(t'.tip.hash, t.tip.hash), Accept(t, h).1.disconnected;
    ReportIsWalk(t', t.tip.hash, f);
    assert Placed(t, t.tip.hash);
    forall i | 0 <= i < |list|
      ensures list[i].height == t.tip.height - i && StoredAt(t, list[i].header.BlockHash(), t.tip.height - i)
      ensures Descends(t.tip.hash, list[i].header.BlockHash())
    {
      var y := list[i].header.BlockHash();
      assert StoredAt(t', y, t.tip.height - i) && Placed(t', y);
      AncestorsAreStored(t, t.tip.hash, y);
    }
  }

  lemma ListedIffAbove(t: Tree, list: seq<Indexed>, f: Hash, x: Hash)
    requires Valid(t) && PathTo(t, list, f)
    ensures Listed(list, x) <==> Active(t, x) && t.headers[f].height < t.headers[x].height
  {
    if Active(t, x) && t.headers[f].height < t.headers[x].height {
      ActiveIsAtHeight(t, x);
      var i := t.tip.height - t.headers[x].height;
      OnePerHeight(t, t.tip.hash, x, list[i].header.BlockHash());
      assert list[i].header.BlockHash() == x;
    }
  }

  lemma ListedIffLeft(t: Tree, h: Header, x: Hash)
    requires Valid(t) && Exact(t) && Reorganizes(t, h) && TallEnough(t, h)
    ensures Listed(Accept(t, h).1.disconnected, x) <==> Active(t, x) && !Active(Accept(t, h).0, x)
  {
    var t' := Accept(t, h).0;
    var f := Meet(t'.tip.hash, t.tip.hash);
    DisconnectedIsPath(t, h);
    InsertedLeaf(t, h);
    ListedIffAbove(t, Accept(t, h).1.disconnected, f, x);
    if Active(t, x) {
      LeftIsAboveFork(t, t', f, x);
    }
  }

  lemma ListedReversed(list: seq<Indexed>, x: Hash)
    ensures Listed(Reversed(list), x) <==> Listed(list, x)
    ensures Listed(list, x) <==> x in BlockHashes(list)
  {
    var r := Reversed(list);
    if Listed(list, x) {
      var i :| 0 <= i < |list| && list[i].header.BlockHash() == x;
      assert r[|list| - 1 - i] == list[i];
      assert BlockHashes(list)[i] == x;
    }
    if Listed(r, x) {
      var i :| 0 <= i < |r| && r[i].header.BlockHash() == x;
      assert list[|list| - 1 - i] == r[i];
    }
    if x in BlockHashes(list) {
      var i :| 0 <= i < |list| && BlockHashes(list)[i] == x;
      assert list[i].header.BlockHash() == x;
    }
  }

  /** On an exact tree, a reorganization that is tall enough tells the client, lowest first, of
      exactly the headers that it takes off the active chain, and drops exactly their blocks from
      the queue. */
  lemma ReorganizationTells(c: Chain, h: Header, next: Option<Checkpoint>) returns (list: seq<Indexed>)
    requires Valid(c.tree) && Exact(c.tree) && Reorganizes(c.tree, h) && TallEnough(c.tree, h)
    ensures var c' := AbsorbOne(c, h, next).chain;
            && c'.events == c.events + [BlocksDisconnected(list)] && Ascending(list)
            && (forall x :: Listed(list, x) <==> Active(c.tree, x) && !Active(c'.tree, x))
            && (forall x :: InQueue(c', x) <==> InQueue(c, x) && !Listed(list, x))
  {
    var gone := Accept(c.tree, h).1.disconnected;
    list := Reversed(gone);
    AbsorbOneBooks(c, h, next);
    DisconnectedIsPath(c.tree, h);
    forall x ensures Listed(list, x) <==> Active(c.tree, x) && !Active(AbsorbOne(c, h, next).chain.tree, x) {
      ListedReversed(gone, x);
      ListedIffLeft(c.tree, h, x);
    }
    forall x ensures InQueue(AbsorbOne(c, h, next).chain, x) <==> InQueue(c, x) && !Listed(list, x) {
      ListedReversed(gone, x);
      BlockQueues.RetainMember(c.queue.queue, BlockHashes(gone), x);
    }
  }
}
