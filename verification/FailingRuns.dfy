/** Runs of the node that break what it seems to promise, each with a concrete input. */
module FailingRuns {
  import opened Hashes
  import opened Filters
  import opened Graph
  import opened GraphIndex
  import opened GraphFilters
  import opened FilterHeaders
  import opened FilterHeaderChain
  import opened FilterRequests
  import opened ChainState
  import opened ChainInvariant
  import opened Evidence
  import opened Deliveries
  import opened NodeState
  import opened NodeRuns
  import opened NodeSync
  import opened NodeMoves
  import BlockQueues

  const AHEAD: nat := 1_000_000

  /** The filter of contents 2 matches, all others do not. */
  ghost function SecondMatches(): Matcher {
    (contents: nat, x: Hash, scripts: set<Script>) => Some(contents == 2)
  }

  /** A header on `prev`, told apart by `salt`. */
  function Child(prev: Hash, work: Pos, salt: nat): Header {
    Header(prev, Bits(work, work), salt)
  }

  ghost predicate PowPasses(net: Network) {
    forall h :: net.validPow(h)
  }

  ghost predicate AnyPow(net: Network) {
    !Retargets(net) && PowPasses(net)
  }

  // ---------- A reply to an answered request ----------

  ghost function Committing(prev: FilterHeader, contents: nat): Commitment {
    Commitment(Link(FilterHash(contents), prev), FilterHash(contents))
  }

  ghost function ReplyFor(x: Hash, prev: FilterHeader, contents: nat): CFHeaders {
    CFHeaders(x, prev, [FilterHash(contents)])
  }

  lemma SingleBatch(x: Hash, prev: FilterHeader, contents: nat)
    ensures BatchOf(ReplyFor(x, prev, contents)).inner == [Committing(prev, contents)]
  {
    var hashes := [FilterHash(contents)];
    assert hashes[1..] == [] && Chained(Link(hashes[0], prev), []) == [];
    assert Chained(prev, hashes) == [Committing(prev, contents)] + Chained(Link(hashes[0], prev), hashes[1..]);
  }

  lemma CommitOne(t: Tree, x: Hash, prev: FilterHeader, contents: nat)
    requires x.Of? && x in t.headers
    ensures Commit(t, BatchOf(ReplyFor(x, prev, contents)))
         == t.(headers := t.headers[x := t.headers[x].(commitment := Some(Committing(prev, contents)))])
  {
    SingleBatch(x, prev, contents);
    var c := Committing(prev, contents);
    assert [c][..0] == [] && [c][0] == c;
    assert PushBatch(t.headers, [c], x) == PushBatch(SetCommitment(t.headers, c, x), [], x.header.prev);
  }

  lemma SyncedTo(c: Chain, height: nat)
    requires c.heights == map[0 := height] && height <= c.tree.tip.height
    ensures IsSynced(c)
  {
    assert 0 in c.heights;
  }

  /** A tree of one header on the checkpoint. */
  ghost function OneTree(net: Network, h: Header, commitment: Option<Commitment>, checked: bool): Tree {
    var x := h.BlockHash();
    Tree(net, Origin(Anchor(0), 0), map[1 := x], map[x := BlockNode(1, h, h.bits.work, commitment, checked)], Tip(x, 1, None), [])
  }

  lemma OneTreeState(t: Tree, net: Network, h: Header, commitment: Option<Commitment>, checked: bool)
    requires h.prev == Anchor(0) && t == OneTree(net, h, commitment, checked)
    ensures forall x :: Active(t, x) <==> x == h.BlockHash()
    ensures AllCommitted(t) <==> commitment.Some?
    ensures AllChecked(t) <==> checked
    ensures NextRequest(t) == FilterHeaderRequest(1, h.BlockHash(), if commitment.Some? then Some(commitment.value.header) else None)
  {
    assert Active(t, h.BlockHash());
    assert UncommittedRun(t.headers, Anchor(0), 1) == (1, None);
  }

  ghost function AfterAsking(c: Chain): Chain {
    c.(request := c.request.(lastFilterHeaderRequest := Some(NextRequest(c.tree))))
  }

  lemma AskingIs(c: Chain)
    requires IsSynced(c) && !AllCommitted(c.tree)
    ensures NextStatefulMessage(c).0 == AfterAsking(c)
  {
  }

  lemma AskingFilters(c: Chain)
    requires IsSynced(c) && AllCommitted(c.tree)
    ensures var c' := NextStatefulMessage(c).0;
            c' == c.(request := c.request.(lastFilterRequest := c'.request.lastFilterRequest))
            && (!AllChecked(c.tree) ==> c'.request.lastFilterRequest.Some?)
            && (AllChecked(c.tree) ==> c' == c)
  {
  }

  /** One header on the checkpoint. */
  lemma OneHeaderLoaded(net: Network, h: Header, required: U8) returns (n: Client)
    requires AnyPow(net) && h.prev == Anchor(0)
    ensures Reached(ClientOf(net, SecondMatches(), required), n)
    ensures var c, x := ClientOf(net, SecondMatches(), required).chain, h.BlockHash();
            n == Client(Behind, c.(
              tree := Tree(net, Origin(Anchor(0), 0), map[1 := x], map[x := FreshNode(1, h, h.bits.work)], Tip(x, 1, None), []),
              heights := map[0 := AHEAD], store := n.chain.store))
  {
    var start := ClientOf(net, SecondMatches(), required);
    ClientStarts(net, SecondMatches(), required);
    ReachedStart(start);
    n := HearHeight(start, start, AHEAD);
    GrowTip(n.chain.tree, h);
    n := TakeHeader(start, n, h);
  }

  /** One round: the client asks, and one reply commits all that was left. */
  lemma AskAndCommit(start: Client, n: Client, message: CFHeaders) returns (n': Client)
    requires Reached(start, n) && OneAgrees(n) && n.chain.heights == map[0 := 0]
    requires var t := n.chain.tree;
             && !AllCommitted(t) && Judge(t, Some(NextRequest(t)), BatchOf(message)) == Counts
             && AllCommitted(Commit(t, BatchOf(message))) && !AllChecked(Commit(t, BatchOf(message)))
    ensures Reached(start, n') && OneAgrees(n') && n'.chain.request.lastFilterRequest.Some?
    ensures n' == n.(chain := n.chain.(
                   tree := Commit(n.chain.tree, BatchOf(message)),
                   request := RequestState(n'.chain.request.lastFilterRequest, Some(NextRequest(n.chain.tree)), Agreement(None, 0, 1))))
  {
    SyncedTo(n.chain, 0);
    AskingIs(n.chain);
    n' := AskNext(start, n);
    SyncedTo(n'.chain.(tree := Commit(n.chain.tree, BatchOf(message))), 0);
    AskingFilters(n'.chain.(tree := Commit(n.chain.tree, BatchOf(message))));
    n' := TakeReply(start, n', message);
  }

  ghost predicate OneHeaderState(n: Client, net: Network, h: Header, commitment: Option<Commitment>, checked: bool) {
    && n.chain.tree == OneTree(net, h, commitment, checked)
    && n.chain.heights == map[0 := 0] && n.chain.checkpoints == [] && OneAgrees(n)
    && n.chain.matcher == SecondMatches() && n.chain.queue.queue == [] && n.chain.queue.want == None
    && n.phase == Behind
  }

  /** The header is asked for and committed: the request stays outstanding. */
  lemma OneHeaderCommitted(net: Network, h: Header) returns (n: Client)
    requires AnyPow(net) && h.prev == Anchor(0)
    ensures Reached(NewClient(net, SecondMatches()), n)
    ensures OneHeaderState(n, net, h, Some(Committing(Seed(0), 7)), false) && n.chain.log == [Assumed({})]
    ensures n.chain.request.lastFilterHeaderRequest == Some(FilterHeaderRequest(1, h.BlockHash(), None))
    ensures n.chain.request.lastFilterRequest.Some?
  {
    var start, x := NewClient(net, SecondMatches()), h.BlockHash();
    n := OneHeaderLoaded(net, h, 1);
    n := HearHeight(start, n, 0);
    assert n.chain.heights == map[0 := 0];
    OneTreeState(n.chain.tree, net, h, None, false);
    SingleBatch(x, Seed(0), 7);
    CommitOne(n.chain.tree, x, Seed(0), 7);
    OneTreeState(Commit(n.chain.tree, BatchOf(ReplyFor(x, Seed(0), 7))), net, h, Some(Committing(Seed(0), 7)), false);
    n := AskAndCommit(start, n, ReplyFor(x, Seed(0), 7));
  }

  /** Its filter, of contents 7, is checked. */
  lemma OneHeaderChecked(net: Network, h: Header) returns (n: Client)
    requires AnyPow(net) && h.prev == Anchor(0)
    ensures Reached(NewClient(net, SecondMatches()), n)
    ensures OneHeaderState(n, net, h, Some(Committing(Seed(0), 7)), true)
    ensures n.chain.log == [Assumed({}), Checked(h.BlockHash(), 7, Committing(Seed(0), 7), false)]
    ensures n.chain.request.lastFilterHeaderRequest == Some(FilterHeaderRequest(1, h.BlockHash(), None))
  {
    n := OneHeaderCommitted(net, h);
    OneTreeState(n.chain.tree, net, h, Some(Committing(Seed(0), 7)), false);
    n := TakeFilter(NewClient(net, SecondMatches()), n, CFilter(7, h.BlockHash()));
  }

  /** A second reply to the answered request, with another filter hash, is committed. Every
      header is checked, nothing was given up, the sync is announced; and the header commits to a
      filter hash that no checked filter had. */
  lemma AnsweredRequestIsAnsweredAgain(net: Network, h: Header)
    requires AnyPow(net) && h.prev == Anchor(0)
    ensures exists n, x ::
              && Reached(NewClient(net, SecondMatches()), n) && AnnouncesSync(n)
              && AllChecked(n.chain.tree) && NoneGivenUp(n.chain) && Active(n.chain.tree, x) && !Tied(n.chain, x)
  {
    var start, x := NewClient(net, SecondMatches()), h.BlockHash();
    var n := OneHeaderChecked(net, h);
    OneTreeState(n.chain.tree, net, h, Some(Committing(Seed(0), 7)), true);
    SingleBatch(x, Seed(0), 8);
    CommitOne(n.chain.tree, x, Seed(0), 8);
    var t := Commit(n.chain.tree, BatchOf(ReplyFor(x, Seed(0), 8)));
    OneTreeState(t, net, h, Some(Committing(Seed(0), 8)), true);
    SyncedTo(n.chain.(tree := t), 0);
    AskingFilters(n.chain.(tree := t));
    n := TakeReply(start, n, ReplyFor(x, Seed(0), 8));
    n := TurnToBlocks(start, n);
    assert Active(n.chain.tree, x) && !Tied(n.chain, x);
  }

  // ---------- A header that comes late ----------

  lemma LateState(t: Tree, net: Network, h: Header, late: Header, commitment: Option<Commitment>)
    requires AnyPow(net) && h.prev == Anchor(0) && late.prev == h.BlockHash()
    requires t == OneTree(net, h, commitment, true)
    ensures Accept(t, late).1.Accepted? && Accept(t, late).0.tip.height == 2 && !AllChecked(Accept(t, late).0)
    ensures late.BlockHash() !in t.headers && late.BlockHash() != t.tip.hash
  {
    assert Depth(late.BlockHash()) == Depth(h.BlockHash()) + 1;
    GrowTip(t, late);
    assert Active(Accept(t, late).0, late.BlockHash());
  }

  /** A header that arrives when the node has gone on to download blocks is announced as synced,
      although its filter was never looked at. */
  lemma LateHeaderIsAnnounced(net: Network, h: Header, late: Header)
    requires AnyPow(net) && h.prev == Anchor(0) && late.prev == h.BlockHash()
    ensures exists n :: Reached(NewClient(net, SecondMatches()), n) && AnnouncesSync(n) && !AllChecked(n.chain.tree)
  {
    var start := NewClient(net, SecondMatches());
    var n := OneHeaderChecked(net, h);
    OneTreeState(n.chain.tree, net, h, Some(Committing(Seed(0), 7)), true);
    SyncedTo(n.chain, 0);
    LateState(n.chain.tree, net, h, late, Some(Committing(Seed(0), 7)));
    n := TurnToBlocks(start, n);
    n := HearHeight(start, n, AHEAD);
    n := TakeHeader(start, n, late);
  }

  // ---------- One peer in place of two ----------

  ghost function Batches(x: Hash, contents: nat): Batch {
    BatchOf(ReplyFor(x, Seed(0), contents))
  }

  /** One header, asked for, and a quorum of two. */
  lemma TwoAreAsked(net: Network, h: Header) returns (n: Client)
    requires AnyPow(net) && h.prev == Anchor(0)
    ensures Reached(ClientOf(net, SecondMatches(), 2), n) && n.chain.tree == OneTree(net, h, None, false)
    ensures n.chain.request == RequestState(None, Some(FilterHeaderRequest(1, h.BlockHash(), None)), Agreement(None, 0, 2))
  {
    var start := ClientOf(net, SecondMatches(), 2);
    n := OneHeaderLoaded(net, h, 2);
    n := HearHeight(start, n, 0);
    assert n.chain.heights == map[0 := 0];
    OneTreeState(n.chain.tree, net, h, None, false);
    SyncedTo(n.chain, 0);
    AskingIs(n.chain);
    n := AskNext(start, n);
  }

  lemma OneReplyCounts(t: Tree, net: Network, h: Header, contents: nat)
    requires h.prev == Anchor(0) && t == OneTree(net, h, None, false)
    ensures Judge(t, Some(FilterHeaderRequest(1, h.BlockHash(), None)), Batches(h.BlockHash(), contents)) == Counts
    ensures AllCommitted(Commit(t, Batches(h.BlockHash(), contents))) && !AllCommitted(t)
  {
    SingleBatch(h.BlockHash(), Seed(0), contents);
    CommitOne(t, h.BlockHash(), Seed(0), contents);
    OneTreeState(t, net, h, None, false);
    OneTreeState(Commit(t, Batches(h.BlockHash(), contents)), net, h, Some(Committing(Seed(0), contents)), false);
  }

  /** The peer repeats itself: nothing is pending any more, but one message stays counted. */
  lemma RepeatIsForgotten(net: Network, h: Header) returns (n: Client)
    requires AnyPow(net) && h.prev == Anchor(0)
    ensures Reached(ClientOf(net, SecondMatches(), 2), n) && n.chain.tree == OneTree(net, h, None, false)
    ensures n.chain.request == RequestState(None, Some(FilterHeaderRequest(1, h.BlockHash(), None)), Agreement(None, 1, 2))
  {
    var start, message := ClientOf(net, SecondMatches(), 2), ReplyFor(h.BlockHash(), Seed(0), 7);
    OneReplyCounts(OneTree(net, h, None, false), net, h, 7);
    OnePeerMeetsQuorumOfTwo(0, BatchOf(message), BatchOf(message));
    n := TwoAreAsked(net, h);
    n := TakeVote(start, n, message);
    n := TakeVote(start, n, message);
  }

  /** A client that asks two peers to agree hears only one. Its third message, whatever filter it
      names, is committed although no message like it was counted. */
  lemma OnePeerCommitsAlone(net: Network, h: Header, contents: nat)
    requires AnyPow(net) && h.prev == Anchor(0)
    ensures exists n ::
              && Reached(ClientOf(net, SecondMatches(), 2), n) && BelowQuorum(n.chain.request.agreement)
              && n.chain.request.agreement.required == 2 && n.chain.request.agreement.pending == None
              && !AllCommitted(n.chain.tree)
              && var (c, result) := SyncCFHeaders(n.chain, 0, ReplyFor(h.BlockHash(), Seed(0), contents));
                 result == Counted(Extended) && AllCommitted(c.tree)
  {
    var message := ReplyFor(h.BlockHash(), Seed(0), contents);
    var n := RepeatIsForgotten(net, h);
    OneReplyCounts(n.chain.tree, net, h, contents);
    assert SyncCFHeaders(n.chain, 0, message).0.tree == Commit(n.chain.tree, BatchOf(message));
  }

  // ---------- A block that is given up ----------

  const ROOT: Header := Child(Anchor(0), 10, 0)
  const LEFT: Header := Child(ROOT.BlockHash(), 1, 0)
  const RIGHT: Header := Child(ROOT.BlockHash(), 10, 1)
  const RIGHT2: Header := Child(RIGHT.BlockHash(), 10, 0)
  const LEFT2: Header := Child(LEFT.BlockHash(), 100, 0)

  lemma Family()
    ensures ROOT.prev == Anchor(0) && LEFT.prev == RIGHT.prev == ROOT.BlockHash()
    ensures RIGHT2.prev == RIGHT.BlockHash() && LEFT2.prev == LEFT.BlockHash()
    ensures Depth(ROOT.BlockHash()) == 1 && Depth(LEFT.BlockHash()) == 2 && Depth(RIGHT.BlockHash()) == 2
    ensures Depth(LEFT2.BlockHash()) == 3 && Depth(RIGHT2.BlockHash()) == 3
    ensures LEFT != RIGHT && LEFT2 != RIGHT2
  {
  }

  /** The root and the left header, with what they commit to and whether they are checked. */
  ghost function TwoTree(net: Network, first: Option<Commitment>, second: Option<Commitment>, one: bool, two: bool): Tree {
    var (r, l) := (ROOT.BlockHash(), LEFT.BlockHash());
    Tree(net, Origin(Anchor(0), 0), map[1 := r, 2 := l],
         map[r := BlockNode(1, ROOT, 10, first, one), l := BlockNode(2, LEFT, 11, second, two)], Tip(l, 2, None), [])
  }

  lemma TwoTreeState(t: Tree, net: Network, first: Option<Commitment>, second: Option<Commitment>, one: bool, two: bool)
    requires t == TwoTree(net, first, second, one, two)
    ensures AllCommitted(t) <==> first.Some? && second.Some?
    ensures AllChecked(t) <==> one && two
    ensures first.None? && second.None? ==> NextRequest(t) == FilterHeaderRequest(1, LEFT.BlockHash(), None)
  {
    Family();
    assert Active(t, LEFT.BlockHash()) && Active(t, ROOT.BlockHash());
    assert UncommittedRun(t.headers, Anchor(0), 1) == (1, None);
    assert UncommittedRun(t.headers, LEFT.BlockHash(), 2)
        == if second.Some? then (2, Some(second.value.header)) else UncommittedRun(t.headers, ROOT.BlockHash(), 2);
  }

  lemma TwoHeaders(net: Network) returns (n: Client)
    requires AnyPow(net)
    ensures Reached(NewClient(net, SecondMatches()), n)
    ensures n == NewClient(net, SecondMatches()).(chain := NewClient(net, SecondMatches()).chain.(
                   tree := TwoTree(net, None, None, false, false), heights := map[0 := AHEAD], store := n.chain.store))
  {
    Family();
    n := OneHeaderLoaded(net, ROOT, 1);
    GrowTip(n.chain.tree, LEFT);
    n := TakeHeader(NewClient(net, SecondMatches()), n, LEFT);
  }

  ghost function First(): Commitment { Committing(Seed(0), 1) }

  ghost function Second(): Commitment { Committing(First().header, 2) }

  ghost function TwoFilters(): CFHeaders {
    CFHeaders(LEFT.BlockHash(), Seed(0), [FilterHash(1), FilterHash(2)])
  }

  lemma TwoBatch(net: Network)
    ensures BatchOf(TwoFilters()).inner == [First(), Second()]
    ensures Commit(TwoTree(net, None, None, false, false), BatchOf(TwoFilters()))
         == TwoTree(net, Some(First()), Some(Second()), false, false)
  {
    Family();
    var hashes := [FilterHash(1), FilterHash(2)];
    assert hashes[1..] == [FilterHash(2)] && hashes[1..][1..] == [];
    assert Chained(Seed(0), hashes) == [First()] + Chained(First().header, hashes[1..]);
    assert Chained(First().header, [FilterHash(2)]) == [Second()] + Chained(Second().header, []);
    var t := TwoTree(net, None, None, false, false);
    var cs := [First(), Second()];
    assert cs[..1] == [First()] && cs[..1][..0] == [];
    var hs := SetCommitment(t.headers, Second(), LEFT.BlockHash());
    assert PushBatch(t.headers, cs, LEFT.BlockHash()) == PushBatch(hs, [First()], ROOT.BlockHash());
    var hs' := SetCommitment(hs, First(), ROOT.BlockHash());
    assert PushBatch(hs, [First()], ROOT.BlockHash()) == PushBatch(hs', [], Anchor(0)) == hs';
    assert hs' == TwoTree(net, Some(First()), Some(Second()), false, false).headers;
  }

  ghost predicate TwoState(n: Client, net: Network, one: bool, two: bool) {
    && n.chain.tree == TwoTree(net, Some(First()), Some(Second()), one, two)
    && n.chain.heights == map[0 := 0] && n.chain.checkpoints == [] && OneAgrees(n)
    && n.chain.matcher == SecondMatches() && n.phase == Behind && n.chain.request.lastFilterRequest.Some?
    && n.chain.queue.want == None
  }

  lemma TwoCommitted(net: Network) returns (n: Client)
    requires AnyPow(net)
    ensures Reached(NewClient(net, SecondMatches()), n) && TwoState(n, net, false, false)
    ensures n.chain.log == [Assumed({})] && n.chain.queue.queue == []
  {
    var start := NewClient(net, SecondMatches());
    n := TwoHeaders(net);
    n := HearHeight(start, n, 0);
    assert n.chain.heights == map[0 := 0];
    TwoTreeState(n.chain.tree, net, None, None, false, false);
    TwoBatch(net);
    TwoTreeState(Commit(n.chain.tree, BatchOf(TwoFilters())), net, Some(First()), Some(Second()), false, false);
    n := AskAndCommit(start, n, TwoFilters());
  }

  ghost function TwoLog(): seq<Entry> {
    [Assumed({}), Checked(ROOT.BlockHash(), 1, First(), false), Checked(LEFT.BlockHash(), 2, Second(), true)]
  }

  lemma FirstChecked(net: Network) returns (n: Client)
    requires AnyPow(net)
    ensures Reached(NewClient(net, SecondMatches()), n) && TwoState(n, net, true, false)
    ensures n.chain.log == TwoLog()[..2] && n.chain.queue.queue == []
  {
    Family();
    n := TwoCommitted(net);
    TwoTreeState(n.chain.tree, net, Some(First()), Some(Second()), false, false);
    n := TakeFilter(NewClient(net, SecondMatches()), n, CFilter(1, ROOT.BlockHash()));
    assert n.chain.tree == TwoTree(net, Some(First()), Some(Second()), true, false);
  }

  /** Both filters are checked. That of the left header matches, and its block waits. */
  lemma TwoChecked(net: Network) returns (n: Client)
    requires AnyPow(net)
    ensures Reached(NewClient(net, SecondMatches()), n) && TwoState(n, net, true, true)
    ensures n.chain.log == TwoLog() && n.chain.queue.queue == [LEFT.BlockHash()]
  {
    Family();
    n := FirstChecked(net);
    TwoTreeState(n.chain.tree, net, Some(First()), Some(Second()), true, false);
    n := TakeFilter(NewClient(net, SecondMatches()), n, CFilter(2, LEFT.BlockHash()));
    assert n.chain.tree == TwoTree(net, Some(First()), Some(Second()), true, true);
  }

  ghost function LeftNode(): BlockNode { BlockNode(2, LEFT, 11, Some(Second()), true) }

  ghost function RootNode(): BlockNode { BlockNode(1, ROOT, 10, Some(First()), true) }

  /** The right branch, of two headers, is active, and the left header is a candidate. */
  ghost function RightTree(net: Network): Tree {
    var (r, l, b, b2) := (ROOT.BlockHash(), LEFT.BlockHash(), RIGHT.BlockHash(), RIGHT2.BlockHash());
    Tree(net, Origin(Anchor(0), 0), map[1 := r, 2 := b, 3 := b2],
         map[r := RootNode(), l := LeftNode(), b := FreshNode(2, RIGHT, 20), b2 := FreshNode(3, RIGHT2, 30)],
         Tip(b2, 3, Some(ROOT.bits)), [Tip(l, 2, None)])
  }

  lemma RightForks(t: Tree, net: Network)
    requires !Retargets(net) && t == TwoTree(net, Some(First()), Some(Second()), true, true)
    ensures Accept(t, RIGHT).1.ExtendedFork? && RIGHT.BlockHash() !in t.headers && RIGHT.BlockHash() != t.tip.hash
    ensures Accept(t, RIGHT).0
         == t.(headers := t.headers[RIGHT.BlockHash() := FreshNode(2, RIGHT, 20)],
               forks := [Tip(RIGHT.BlockHash(), 2, Some(ROOT.bits))])
  {
    Family();
    GrowFork(t, RIGHT);
  }

  lemma SwitchRight(hs: map<Hash, BlockNode>, index: map<nat, Hash>)
    requires index == map[1 := ROOT.BlockHash(), 2 := LEFT.BlockHash()]
    requires hs == map[ROOT.BlockHash() := RootNode(), LEFT.BlockHash() := LeftNode(),
                       RIGHT.BlockHash() := FreshNode(2, RIGHT, 20), RIGHT2.BlockHash() := FreshNode(3, RIGHT2, 30)]
    ensures var s := Switch(hs, index, RIGHT2.BlockHash());
            s.disconnected == [Indexed(2, LEFT)]
            && s.index == map[1 := ROOT.BlockHash(), 2 := RIGHT.BlockHash(), 3 := RIGHT2.BlockHash()]
  {
    Family();
    var i3 := index[3 := RIGHT2.BlockHash()];
    var i2 := i3[2 := RIGHT.BlockHash()];
    assert Switch(hs, i2, ROOT.BlockHash()) == Switched(i2, [], []);
    assert Switch(hs, i3, RIGHT.BlockHash()) == Switched(i2, [Indexed(2, RIGHT)], [Indexed(2, LEFT)]);
    assert Switch(hs, index, RIGHT2.BlockHash())
        == Switched(i2, [Indexed(3, RIGHT2), Indexed(2, RIGHT)], [Indexed(2, LEFT)]);
  }

  lemma RightWins(t: Tree, net: Network)
    requires !Retargets(net) && t == Accept(TwoTree(net, Some(First()), Some(Second()), true, true), RIGHT).0
    ensures RIGHT2.BlockHash() !in t.headers && RIGHT2.BlockHash() != t.tip.hash
    ensures Accept(t, RIGHT2).0 == RightTree(net)
    ensures Accept(t, RIGHT2).1.Reorganization? && Accept(t, RIGHT2).1.disconnected == [Indexed(2, LEFT)]
  {
    Family();
    RightForks(TwoTree(net, Some(First()), Some(Second()), true, true), net);
    GrowOnlyCandidate(t, RIGHT2);
    SwitchRight(t.headers[RIGHT2.BlockHash() := FreshNode(3, RIGHT2, 30)], t.index);
    assert Accept(t, RIGHT2).0.headers == RightTree(net).headers;
  }

  lemma DropLeft(q: BlockQueues.Queue)
    requires q.queue == [LEFT.BlockHash()] && q.want == None
    ensures BlockHashes([Indexed(2, LEFT)]) == [LEFT.BlockHash()]
    ensures BlockQueues.Remove(q, [LEFT.BlockHash()]).queue == [] && BlockQueues.Remove(q, [LEFT.BlockHash()]).want == None
  {
    var gone := [LEFT.BlockHash()];
    assert [Indexed(2, LEFT)][1..] == [] && gone[1..] == [];
    assert BlockQueues.Retain(gone, gone) == BlockQueues.Retain(gone[1..], gone) == [];
  }

  ghost function PhaseOf(turned: bool): Phase {
    if turned then FilterHeadersSynced else Behind
  }

  /** The same, after the node has gone on to the phase of filters or not. */
  lemma TwoTurned(net: Network, turned: bool) returns (n: Client)
    requires AnyPow(net)
    ensures Reached(NewClient(net, SecondMatches()), n) && n.phase == PhaseOf(turned)
    ensures TwoState(n.(phase := Behind), net, true, true)
    ensures n.chain.log == TwoLog() && n.chain.queue.queue == [LEFT.BlockHash()]
  {
    n := TwoChecked(net);
    if turned {
      SyncedTo(n.chain, 0);
      TwoTreeState(n.chain.tree, net, Some(First()), Some(Second()), true, true);
      n := Turn(NewClient(net, SecondMatches()), n);
      n := Turn(NewClient(net, SecondMatches()), n);
    }
  }

  ghost predicate BlockWaits(n: Client, turned: bool) {
    && n.phase == PhaseOf(turned) && n.chain.heights == map[0 := AHEAD] && n.chain.checkpoints == [] && OneAgrees(n)
    && n.chain.matcher == SecondMatches() && n.chain.queue.queue == [LEFT.BlockHash()] && n.chain.queue.want == None
    && n.chain.log == TwoLog()
  }

  lemma TwoAhead(net: Network, turned: bool) returns (n: Client)
    requires AnyPow(net)
    ensures Reached(NewClient(net, SecondMatches()), n) && BlockWaits(n, turned)
    ensures n.chain.tree == TwoTree(net, Some(First()), Some(Second()), true, true)
  {
    n := TwoTurned(net, turned);
    n := HearHeight(NewClient(net, SecondMatches()), n, AHEAD);
    assert n.chain.heights == map[0 := AHEAD];
  }

  lemma RightStarted(net: Network, turned: bool) returns (n: Client)
    requires AnyPow(net)
    ensures Reached(NewClient(net, SecondMatches()), n) && BlockWaits(n, turned)
    ensures n.chain.tree == Accept(TwoTree(net, Some(First()), Some(Second()), true, true), RIGHT).0
  {
    n := TwoAhead(net, turned);
    RightForks(n.chain.tree, net);
    n := TakeHeader(NewClient(net, SecondMatches()), n, RIGHT);
  }

  ghost predicate Empty(q: BlockQueues.Queue) {
    q.queue == [] && q.want == None
  }

  ghost predicate Idle(n: Client, turned: bool) {
    && n.phase == PhaseOf(turned) && n.chain.checkpoints == [] && OneAgrees(n)
    && n.chain.matcher == SecondMatches() && Empty(n.chain.queue)
  }

  /** The right branch wins before the block of the left header arrives. */
  lemma LeftDisconnected(net: Network, turned: bool) returns (n: Client)
    requires AnyPow(net)
    ensures Reached(NewClient(net, SecondMatches()), n) && n.chain.tree == RightTree(net) && Idle(n, turned)
    ensures n.chain.heights == map[0 := AHEAD] && n.chain.log == TwoLog() + [Disconnected([LEFT.BlockHash()])]
  {
    n := RightStarted(net, turned);
    RightWins(n.chain.tree, net);
    n := LeftDropped(net, n, turned);
  }

  lemma LeftDropped(net: Network, n: Client, turned: bool) returns (n': Client)
    requires Reached(NewClient(net, SecondMatches()), n) && BlockWaits(n, turned) && Fits(n, RIGHT2)
    requires Accept(n.chain.tree, RIGHT2).1.Reorganization? && Accept(n.chain.tree, RIGHT2).1.disconnected == [Indexed(2, LEFT)]
    requires Accept(n.chain.tree, RIGHT2).0.tip.height == 3
    ensures Reached(NewClient(net, SecondMatches()), n') && n'.chain.tree == Accept(n.chain.tree, RIGHT2).0 && Idle(n', turned)
    ensures n'.chain.heights == map[0 := AHEAD] && n'.chain.log == TwoLog() + [Disconnected([LEFT.BlockHash()])]
  {
    DropLeft(n.chain.queue);
    n' := TakeReorganization(NewClient(net, SecondMatches()), n, RIGHT2);
  }

  /** The left branch is active again, one header longer. */
  ghost function LeftTree(net: Network, commitment: Option<Commitment>, checked: bool): Tree {
    var (r, l, l2, b, b2) :=
      (ROOT.BlockHash(), LEFT.BlockHash(), LEFT2.BlockHash(), RIGHT.BlockHash(), RIGHT2.BlockHash());
    Tree(net, Origin(Anchor(0), 0), map[1 := r, 2 := l, 3 := l2],
         map[r := RootNode(), l := LeftNode(), b := FreshNode(2, RIGHT, 20), b2 := FreshNode(3, RIGHT2, 30),
             l2 := BlockNode(3, LEFT2, 111, commitment, checked)],
         Tip(l2, 3, None), [Tip(b2, 3, Some(ROOT.bits))])
  }

  lemma LeftWins(t: Tree, net: Network)
    requires !Retargets(net) && t == RightTree(net)
    ensures LEFT2.BlockHash() !in t.headers && LEFT2.BlockHash() != t.tip.hash
    ensures Accept(t, LEFT2).0 == LeftTree(net, None, false) && Accept(t, LEFT2).1.Reorganization?
    ensures Accept(t, LEFT2).1.disconnected == [Indexed(3, RIGHT2), Indexed(2, RIGHT)]
  {
    Family();
    GrowOnlyCandidate(t, LEFT2);
    var hs := t.headers[LEFT2.BlockHash() := FreshNode(3, LEFT2, 111)];
    var i3 := t.index[3 := LEFT2.BlockHash()];
    var i2 := i3[2 := LEFT.BlockHash()];
    assert Switch(hs, i2, ROOT.BlockHash()) == Switched(i2, [], []);
    assert Switch(hs, i3, LEFT.BlockHash()) == Switched(i2, [Indexed(2, LEFT)], [Indexed(2, RIGHT)]);
    assert Switch(hs, t.index, LEFT2.BlockHash())
        == Switched(i2, [Indexed(3, LEFT2), Indexed(2, LEFT)], [Indexed(3, RIGHT2), Indexed(2, RIGHT)]);
    assert Accept(t, LEFT2).0.headers == LeftTree(net, None, false).headers;
    assert i2 == LeftTree(net, None, false).index;
  }

  lemma LeftTreeState(t: Tree, net: Network, commitment: Option<Commitment>, checked: bool)
    requires t == LeftTree(net, commitment, checked)
    ensures AllCommitted(t) <==> commitment.Some?
    ensures AllChecked(t) <==> checked
    ensures Active(t, LEFT.BlockHash())
    ensures commitment.None? ==> NextRequest(t) == FilterHeaderRequest(3, LEFT2.BlockHash(), Some(Second().header))
  {
    Family();
    assert Active(t, LEFT2.BlockHash()) && Active(t, LEFT.BlockHash()) && Active(t, ROOT.BlockHash());
    assert !Descends(LEFT2.BlockHash(), RIGHT.BlockHash()) && !Descends(LEFT2.BlockHash(), RIGHT2.BlockHash()) by {
      assert !Descends(ROOT.BlockHash(), RIGHT.BlockHash()) && !Descends(ROOT.BlockHash(), RIGHT2.BlockHash());
      assert !Descends(LEFT.BlockHash(), RIGHT.BlockHash()) && !Descends(LEFT.BlockHash(), RIGHT2.BlockHash());
    }
    assert UncommittedRun(t.headers, LEFT.BlockHash(), 3) == (3, Some(Second().header));
  }

  ghost function LostLog(): seq<Entry> {
    TwoLog() + [Disconnected([LEFT.BlockHash()]), Disconnected([RIGHT2.BlockHash(), RIGHT.BlockHash()])]
  }

  lemma DropRight(q: BlockQueues.Queue)
    requires Empty(q)
    ensures var gone := BlockHashes([Indexed(3, RIGHT2), Indexed(2, RIGHT)]);
            && gone == [RIGHT2.BlockHash(), RIGHT.BlockHash()] && Empty(BlockQueues.Remove(q, gone))
            && TwoLog() + [Disconnected([LEFT.BlockHash()])] + [Disconnected(gone)] == LostLog()
  {
    var list := [Indexed(3, RIGHT2), Indexed(2, RIGHT)];
    assert list[1..] == [Indexed(2, RIGHT)] && list[1..][1..] == [];
  }

  lemma LeftBack(net: Network) returns (n: Client)
    requires AnyPow(net)
    ensures Reached(NewClient(net, SecondMatches()), n) && Idle(n, false)
    ensures n.chain.tree == LeftTree(net, None, false) && n.chain.log == LostLog()
    ensures n.chain.heights == map[0 := AHEAD]
  {
    n := LeftDisconnected(net, false);
    LeftWins(n.chain.tree, net);
    DropRight(n.chain.queue);
    n := TakeReorganization(NewClient(net, SecondMatches()), n, LEFT2);
  }

  lemma LeftReconnected(net: Network) returns (n: Client)
    requires AnyPow(net)
    ensures Reached(NewClient(net, SecondMatches()), n) && Idle(n, false)
    ensures n.chain.tree == LeftTree(net, None, false) && n.chain.log == LostLog()
    ensures n.chain.heights == map[0 := 0]
  {
    n := LeftBack(net);
    n := HearHeight(NewClient(net, SecondMatches()), n, 0);
    assert n.chain.heights == map[0 := 0];
  }

  lemma LeftCommitted(net: Network) returns (n: Client)
    requires AnyPow(net)
    ensures Reached(NewClient(net, SecondMatches()), n) && Idle(n, false)
    ensures n.chain.tree == LeftTree(net, Some(Committing(Second().header, 3)), false) && n.chain.log == LostLog()
    ensures n.chain.heights == map[0 := 0] && n.chain.request.lastFilterRequest.Some?
  {
    var message := ReplyFor(LEFT2.BlockHash(), Second().header, 3);
    n := LeftReconnected(net);
    LeftTreeState(n.chain.tree, net, None, false);
    SingleBatch(LEFT2.BlockHash(), Second().header, 3);
    CommitOne(n.chain.tree, LEFT2.BlockHash(), Second().header, 3);
    var t := LeftTree(net, Some(Committing(Second().header, 3)), false);
    assert Commit(n.chain.tree, BatchOf(message)).headers == t.headers;
    LeftTreeState(t, net, Some(Committing(Second().header, 3)), false);
    n := AskAndCommit(NewClient(net, SecondMatches()), n, message);
  }

  lemma LeftChecked(net: Network) returns (n: Client)
    requires AnyPow(net)
    ensures Reached(NewClient(net, SecondMatches()), n) && Idle(n, false)
    ensures n.chain.tree == LeftTree(net, Some(Committing(Second().header, 3)), true)
    ensures n.chain.heights == map[0 := 0]
    ensures |n.chain.log| == 6 && n.chain.log[..5] == LostLog()
    ensures n.chain.log[5].Checked? && n.chain.log[5].hash == LEFT2.BlockHash()
  {
    Family();
    n := LeftCommitted(net);
    var commitment := Some(Committing(Second().header, 3));
    LeftTreeState(n.chain.tree, net, commitment, false);
    n := TakeFilter(NewClient(net, SecondMatches()), n, CFilter(3, LEFT2.BlockHash()));
    assert n.chain.tree.headers == LeftTree(net, commitment, true).headers;
  }

  lemma LeftSynced(net: Network) returns (n: Client)
    requires AnyPow(net)
    ensures Reached(NewClient(net, SecondMatches()), n) && AnnouncesSync(n) && AllChecked(n.chain.tree)
    ensures Empty(n.chain.queue) && Active(n.chain.tree, LEFT.BlockHash()) && GivenUp(n.chain.log, LEFT.BlockHash())
  {
    n := LeftChecked(net);
    LeftTreeState(n.chain.tree, net, Some(Committing(Second().header, 3)), true);
    SyncedTo(n.chain, 0);
    LostLogGivesUp(n.chain.log);
    n := TurnToBlocks(NewClient(net, SecondMatches()), n);
  }

  /** The filter of the left header matched, but its block was dropped when it was disconnected.
      Connected again, it counts as checked, so the sync is announced without its block. */
  lemma ReconnectedBlockIsNeverDelivered(net: Network)
    requires AnyPow(net)
    ensures exists n, x ::
              && Reached(NewClient(net, SecondMatches()), n) && AnnouncesSync(n) && AllChecked(n.chain.tree)
              && Active(n.chain.tree, x) && GivenUp(n.chain.log, x) && !Settled(n.chain, x)
  {
    ClientStarts(net, SecondMatches(), 1);
    var n := LeftSynced(net);
    ReachedIsInOrder(NewClient(net, SecondMatches()), n);
    EmptyQueueSettlesIff(n.chain, LEFT.BlockHash());
  }

  lemma ReachedIsInOrder(start: Client, n: Client)
    requires Started(start) && Reached(start, n)
    ensures Books(n) && NoLateDelivery(n.chain.log)
  {
    var inputs :| OnePeer(inputs) && n == RunAll(start, inputs);
    StartKeepsLedger(start);
    RunKeepsLedger(start, inputs);
  }

  lemma LostLogGivesUp(log: seq<Entry>)
    requires |log| == 6 && log[..5] == LostLog() && log[5].Checked? && log[5].hash == LEFT2.BlockHash()
    ensures GivenUp(log, LEFT.BlockHash())
  {
    Family();
    var x := LEFT.BlockHash();
    assert log[0] == log[..5][0] && log[1] == log[..5][1] && log[2] == log[..5][2] && log[3] == log[..5][3] && log[4] == log[..5][4];
    assert LastMatchedAt(log, x, 2);
    assert log[3].Disconnected? && x in log[3].gone;
    assert GivenUpSince(log, x, 2);
  }

  // ---------- A flag that a rescan does not clear ----------

  const LEFT3: Header := Child(LEFT.BlockHash(), 1, 5)
  const LEFT4: Header := Child(LEFT3.BlockHash(), 100, 5)

  /** The left candidate is one header longer, and still a candidate. */
  ghost function LongLeftTree(net: Network): Tree {
    RightTree(net).(headers := RightTree(net).headers[LEFT3.BlockHash() := FreshNode(3, LEFT3, 12)],
                    forks := [Tip(LEFT3.BlockHash(), 3, None)])
  }

  lemma LeftGrows(net: Network)
    requires !Retargets(net)
    ensures var t := RightTree(net);
            && Accept(t, LEFT3) == (LongLeftTree(net), ExtendedFork(Indexed(3, LEFT3)))
            && LEFT3.BlockHash() !in t.headers && LEFT3.BlockHash() != t.tip.hash
  {
    Family();
    assert Depth(LEFT3.BlockHash()) == 3 && LEFT3 != RIGHT2;
    GrowOnlyCandidate(RightTree(net), LEFT3);
  }

  /** The left header is checked, inactive, and reached from no candidate through checked headers. */
  lemma LeftKeepsFlag(t: Tree, net: Network)
    requires t == LongLeftTree(net) && Valid(t)
    ensures LEFT.BlockHash() in t.headers && !Active(t, LEFT.BlockHash())
    ensures SameShape(t, ResetFilters(t)) && ResetFilters(t).headers[LEFT.BlockHash()].checked
  {
    Family();
    var x := LEFT.BlockHash();
    assert !Descends(RIGHT2.BlockHash(), x) by {
      assert !Descends(ROOT.BlockHash(), x) && !Descends(RIGHT.BlockHash(), x);
    }
    assert !CheckedRun(t.headers, LEFT3.BlockHash(), x);
    ResetKeepsFlagIff(t, x);
  }

  lemma LeftWinsChecked(t: Tree, net: Network)
    requires !Retargets(net) && SameShape(LongLeftTree(net), t) && t.headers[LEFT.BlockHash()].checked
    ensures var t' := Accept(t, LEFT4).0;
            && Accept(t, LEFT4).1.Reorganization?
            && Active(t', LEFT.BlockHash()) && t'.headers[LEFT.BlockHash()].checked
  {
    Family();
    var u := LongLeftTree(net);
    assert LEFT3.BlockHash() in u.headers && u.tip.hash in u.headers && LEFT.BlockHash() in u.headers;
    assert Depth(LEFT4.BlockHash()) == 4;
    assert LEFT4.BlockHash() !in u.headers;
    assert SameNode(u.headers[LEFT3.BlockHash()], t.headers[LEFT3.BlockHash()]);
    assert SameNode(u.headers[u.tip.hash], t.headers[u.tip.hash]);
    GrowOnlyCandidate(t, LEFT4);
  }

  /** A rescan leaves the flag of the left header, whose candidate ends in an unchecked header.
      When that candidate wins, the header is active and its filter is not asked for again. */
  lemma RescanMissesFork(net: Network)
    requires AnyPow(net)
    ensures exists n, x, h ::
              && Reached(NewClient(net, SecondMatches()), n) && n.phase == FilterHeadersSynced
              && x in n.chain.tree.headers && !Active(n.chain.tree, x)
              && var t := RescanFilters(n).0.chain.tree;
                 && Reorganizes(t, h) && Active(Accept(t, h).0, x) && Accept(t, h).0.headers[x].checked
  {
    var n := LeftDisconnected(net, true);
    LeftGrows(net);
    n := TakeHeader(NewClient(net, SecondMatches()), n, LEFT3);
    LeftKeepsFlag(n.chain.tree, net);
    LeftWinsChecked(ResetFilters(n.chain.tree), net);
    RescanTree(n);
  }

  lemma RescanTree(n: Client)
    requires n.phase == FilterHeadersSynced
    ensures RescanFilters(n).0.chain.tree == ResetFilters(n.chain.tree)
  {
  }
}
