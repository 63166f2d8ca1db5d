/** The mutable block tree, proved against the value in Graph.dfy. */
module BlockTrees {
  import opened Commons
  import opened Hashes
  import opened Filters
  import opened Graph
  import opened GraphInvariant
  import opened GraphIndex
  import opened GraphFilters

  /** Headers are stored under their own hash. */
  ghost predicate HashesMatch(hs: map<Hash, BlockNode>) {
    forall x | x in hs :: x == hs[x].header.BlockHash()
  }

  lemma StoredUnderTheirHashes(t: Tree)
    requires AllPlaced(t)
    ensures HashesMatch(t.headers)
  {
    forall x | x in t.headers ensures x == t.headers[x].header.BlockHash() {
      assert Placed(t, x);
    }
  }

  ghost function Uncommitted(t: Tree): set<Hash> {
    set x | x in t.headers && Active(t, x) && t.headers[x].commitment.None?
  }

  ghost function Unchecked(t: Tree): set<Hash> {
    set x | x in t.headers && Active(t, x) && !t.headers[x].checked
  }

  /** What a switch reports when it has collected two lists and has `rest` still to do. */
  ghost predicate Resumes(s: Switched, connections: seq<Indexed>, disconnections: seq<Indexed>, rest: Switched) {
    s == Switched(rest.index, connections + rest.accepted, disconnections + rest.disconnected)
  }

  ghost function Displaced(hs: map<Hash, BlockNode>, index: map<nat, Hash>, k: nat): seq<Indexed> {
    if k in index && index[k] in hs then [Indexed(hs[index[k]].height, hs[index[k]].header)] else []
  }

  lemma SwitchResumes(hs: map<Hash, BlockNode>, index: map<nat, Hash>, x: Hash,
                      s: Switched, connections: seq<Indexed>, disconnections: seq<Indexed>)
    requires x in hs && x == hs[x].header.BlockHash()
    requires Resumes(s, connections, disconnections, Switch(hs, index, x))
    ensures var n := hs[x];
            if n.height in index && index[n.height] == x then s == Switched(index, connections, disconnections)
            else Resumes(s, connections + [Indexed(n.height, n.header)],
                         disconnections + Displaced(hs, index, n.height),
                         Switch(hs, index[n.height := x], n.header.prev))
  {
    var n := hs[x];
    if !(n.height in index && index[n.height] == x) {
      var rest := Switch(hs, index[n.height := x], n.header.prev);
      var now := Switch(hs, index, x);
      assert now.accepted == [Indexed(n.height, n.header)] + rest.accepted;
      assert now.disconnected == Displaced(hs, index, n.height) + rest.disconnected;
      assert connections + now.accepted == connections + [Indexed(n.height, n.header)] + rest.accepted;
      assert disconnections + now.disconnected
          == disconnections + Displaced(hs, index, n.height) + rest.disconnected;
    }
  }

  ghost function Grown(t: Tree, h: Header, tip: Tip, accWork: nat): (Tree, Changes) {
    var t1 := t.(headers := t.headers[tip.hash := FreshNode(tip.height, h, accWork)]);
    if WorkOf(t1, t1.tip.hash) < accWork then AdoptFork(t1, tip)
    else (t1.(forks := t1.forks + [tip]), ExtendedFork(Indexed(tip.height, h)))
  }

  /** An extension that is not rejected takes the fork off the candidates and puts it back, one
      header longer. */
  lemma CandidateGrows(t: Tree, h: Header, i: nat)
    requires i < |t.forks| && t.forks[i].hash in t.headers
    requires !BadBits(NextWork(t, t.headers[t.forks[i].hash].height + 1, t.forks[i].nextWork), h)
    ensures var parent := t.headers[t.forks[i].hash];
            var tip := Tip(h.BlockHash(), parent.height + 1, NextWork(t, parent.height + 1, t.forks[i].nextWork));
            ExtendCandidate(t, h, i)
            == Grown(t.(forks := SwapRemove(t.forks, i)), h, tip, parent.accWork + h.bits.work)
  {
  }

  const LOCATOR_INDEX: seq<nat> := [1, 2, 4, 8, 16, 32, 64, 128, 256, 512, 1024]

  class BlockTree {
    var canonicalHashes: map<nat, Hash>
    var headers: map<Hash, BlockNode>
    var activeTip: Tip
    var candidateForks: seq<Tip>
    const network: Network
    ghost const origin: Origin

    ghost function View(): Tree
      reads this
    {
      Tree(network, origin, canonicalHashes, headers, activeTip, candidateForks)
    }

    ghost predicate Valid()
      reads this
    {
      Graph.Valid(View())
    }

    constructor (tip: Tip, network: Network)
      ensures View() == FromTip(network, tip) && Valid()
    {
      this.network := network;
      canonicalHashes, headers, activeTip, candidateForks := map[], map[], tip, [];
      origin := Origin(tip.hash, tip.height);
      new;
      StartsValid(network, tip, 0, network.genesis);
    }

    constructor FromGenesis(network: Network)
      ensures View() == Graph.FromGenesis(network) && Valid()
    {
      var genesis := network.genesis;
      var hash := genesis.BlockHash();
      this.network := network;
      activeTip := Tip(hash, 0, Some(genesis.bits));
      headers := map[hash := FreshNode(0, genesis, genesis.bits.work)];
      canonicalHashes := map[0 := hash];
      candidateForks := [];
      origin := Origin(genesis.prev, -1);
      new;
      StartsValid(network, activeTip, 0, genesis);
    }

    constructor FromHeader(height: nat, header: Header, network: Network)
      ensures View() == Graph.FromHeader(network, height, header) && Valid()
    {
      var hash := header.BlockHash();
      this.network := network;
      activeTip := Tip(hash, height, Some(header.bits));
      headers := map[hash := FreshNode(height, header, header.bits.work)];
      canonicalHashes := map[];
      candidateForks := [];
      origin := Origin(header.prev, height - 1);
      new;
      StartsValid(network, activeTip, height, header);
    }

    // ---------- Accepting headers ----------

    method ComputeNextWorkRequired(newHeight: nat) returns (bits: Option<Bits>)
      ensures bits == ComputeNextWork(View(), newHeight)
    {
      if newHeight < network.interval || newHeight < 1 {
        return None;
      }
      var epochStart: nat, epochEnd: nat := newHeight - network.interval, newHeight - 1;
      if epochStart !in canonicalHashes || epochEnd !in canonicalHashes {
        return None;
      }
      var startHash, endHash := canonicalHashes[epochStart], canonicalHashes[epochEnd];
      if startHash !in headers || endHash !in headers {
        return None;
      }
      bits := Some(network.retarget(headers[startHash].header, headers[endHash].header));
    }

    method NextWorkRequired(newHeight: nat, inherited: Option<Bits>) returns (bits: Option<Bits>)
      ensures bits == NextWork(View(), newHeight, inherited)
    {
      if Retargets(network) && IsAdjustment(network, newHeight) {
        bits := ComputeNextWorkRequired(newHeight);
      } else {
        bits := inherited;
      }
    }

    method ForkPosition(hash: Hash) returns (i: nat)
      ensures i == Position(candidateForks, hash)
    {
      i := 0;
      while i < |candidateForks| && candidateForks[i].hash != hash
        invariant i <= |candidateForks|
        invariant Position(candidateForks, hash) == i + Position(candidateForks[i..], hash)
      {
        assert candidateForks[i..][1..] == candidateForks[i + 1..];
        i := i + 1;
      }
    }

    /** Accept a header, and say what became of it. */
    method AcceptHeader(newHeader: Header) returns (changes: Changes)
      requires Valid()
      modifies this
      ensures (View(), changes) == Accept(old(View()), newHeader)
      ensures Valid()
    {
      ghost var before := View();
      StoredUnderTheirHashes(before);
      changes := Dispatch(newHeader);
      AcceptValid(before, newHeader);
    }

    method Dispatch(newHeader: Header) returns (changes: Changes)
      requires HashesMatch(headers)
      modifies this
      ensures (View(), changes) == Accept(old(View()), newHeader)
    {
      var newHash, prevHash := newHeader.BlockHash(), newHeader.prev;
      if activeTip.hash == prevHash {
        changes := ExtendActive(newHeader);
        return;
      }
      if newHash in headers {
        return Duplicate;
      }
      var forkIndex := ForkPosition(prevHash);
      if forkIndex < |candidateForks| {
        changes := ExtendForkAt(newHeader, forkIndex);
      } else if prevHash in headers {
        changes := ForkFrom(newHeader);
      } else {
        changes := Rejected(UnknownPrevHash(prevHash));
      }
    }

    /** The header extends the active tip. */
    method ExtendActive(newHeader: Header) returns (changes: Changes)
      modifies this
      ensures (View(), changes) == ExtendTip(old(View()), newHeader)
    {
      var newHash, newHeight := newHeader.BlockHash(), activeTip.height + 1;
      var nextWork := NextWorkRequired(newHeight, activeTip.nextWork);
      if nextWork.Some? && newHeader.bits != nextWork.value {
        return Rejected(InvalidPow(nextWork.value, newHeader.bits));
      }
      var prevWork := if newHeader.prev in headers then headers[newHeader.prev].accWork else 0;
      headers := headers[newHash := FreshNode(newHeight, newHeader, prevWork + newHeader.bits.work)];
      activeTip := Tip(newHash, newHeight, nextWork);
      canonicalHashes := canonicalHashes[newHeight := newHash];
      changes := Accepted(Indexed(newHeight, newHeader));
    }

    /** The header branches off where no fork was known. */
    method ForkFrom(newHeader: Header) returns (changes: Changes)
      requires newHeader.prev in headers
      modifies this
      ensures (View(), changes) == StartFork(old(View()), newHeader)
    {
      var newHash, parent := newHeader.BlockHash(), headers[newHeader.prev];
      var newHeight := parent.height + 1;
      var nextWork := NextWorkRequired(newHeight, Some(parent.header.bits));
      if nextWork.Some? && newHeader.bits != nextWork.value {
        return Rejected(InvalidPow(nextWork.value, newHeader.bits));
      }
      candidateForks := candidateForks + [Tip(newHash, newHeight, nextWork)];
      headers := headers[newHash := FreshNode(newHeight, newHeader, parent.accWork + newHeader.bits.work)];
      changes := ExtendedFork(Indexed(newHeight, newHeader));
    }

    /** The header extends a candidate fork, which may now outwork the active chain. */
    method ExtendForkAt(newHeader: Header, forkIndex: nat) returns (changes: Changes)
      requires HashesMatch(headers) && forkIndex < |candidateForks|
      modifies this
      ensures (View(), changes) == ExtendCandidate(old(View()), newHeader, forkIndex)
    {
      var fork, newHash := candidateForks[forkIndex], newHeader.BlockHash();
      var last := |candidateForks| - 1;
      candidateForks := if forkIndex == last then candidateForks[..last]
                        else candidateForks[..last][forkIndex := candidateForks[last]];
      if fork.hash !in headers {
        return Rejected(UnknownPrevHash(newHeader.prev));
      }
      var parent := headers[fork.hash];
      var newHeight := parent.height + 1;
      var nextWork := NextWorkRequired(newHeight, fork.nextWork);
      if nextWork.Some? && newHeader.bits != nextWork.value {
        return Rejected(InvalidPow(nextWork.value, newHeader.bits));
      }
      CandidateGrows(old(View()), newHeader, forkIndex);
      changes := GrowFork(newHeader, Tip(newHash, newHeight, nextWork), parent.accWork + newHeader.bits.work);
    }

    /** Store the new end of a fork, and adopt the fork if it has more work than the active chain. */
    method GrowFork(newHeader: Header, newTip: Tip, accWork: nat) returns (changes: Changes)
      requires HashesMatch(headers) && newTip.hash == newHeader.BlockHash()
      modifies this
      ensures (View(), changes) == Grown(old(View()), newHeader, newTip, accWork)
    {
      headers := headers[newTip.hash := FreshNode(newTip.height, newHeader, accWork)];
      var tipWork := if activeTip.hash in headers then headers[activeTip.hash].accWork else 0;
      if tipWork < accWork {
        changes := Adopt(newTip);
      } else {
        candidateForks := candidateForks + [newTip];
        changes := ExtendedFork(Indexed(newTip.height, newHeader));
      }
    }

    /** The fork outworks the active chain. */
    method Adopt(newTip: Tip) returns (changes: Changes)
      requires HashesMatch(headers)
      modifies this
      ensures (View(), changes) == AdoptFork(old(View()), newTip)
    {
      candidateForks := candidateForks + [activeTip];
      activeTip := newTip;
      var accepted, disconnected := SwitchToFork(newTip);
      changes := Reorganization(accepted, disconnected);
    }

    /** Walk down from the new tip, repairing the index in place, until it agrees. */
    method SwitchToFork(newBest: Tip) returns (connections: seq<Indexed>, disconnections: seq<Indexed>)
      requires HashesMatch(headers)
      modifies this`canonicalHashes
      ensures Switched(canonicalHashes, connections, disconnections)
           == Switch(headers, old(canonicalHashes), newBest.hash)
    {
      ghost var s := Switch(headers, canonicalHashes, newBest.hash);
      var currHash := newBest.hash;
      connections, disconnections := [], [];
      while currHash in headers
        invariant Resumes(s, connections, disconnections, Switch(headers, canonicalHashes, currHash))
        decreases currHash
      {
        var node := headers[currHash];
        SwitchResumes(headers, canonicalHashes, currHash, s, connections, disconnections);
        var displaced: seq<Indexed> := [];
        if node.height in canonicalHashes {
          var reorgedHash := canonicalHashes[node.height];
          if reorgedHash == currHash {
            return;
          }
          if reorgedHash in headers {
            var reorged := headers[reorgedHash];
            displaced := [Indexed(reorged.height, reorged.header)];
          }
        }
        assert displaced == Displaced(headers, canonicalHashes, node.height);
        disconnections := disconnections + displaced;
        canonicalHashes := canonicalHashes[node.height := currHash];
        connections := connections + [Indexed(node.height, node.header)];
        currHash := node.header.prev;
      }
    }

    // ---------- Queries ----------

    function BlockHashAtHeight(height: nat): (hash: Option<Hash>)
      reads this
      ensures hash == BlockHashAt(View(), height)
    {
      if activeTip.height == height then Some(activeTip.hash)
      else if height in canonicalHashes then Some(canonicalHashes[height]) else None
    }

    function HeaderAtHash(hash: Hash): Option<Header>
      reads this
    {
      if hash in headers then Some(headers[hash].header) else None
    }

    function HeightOfHash(hash: Hash): Option<nat>
      reads this
    {
      if hash in headers then Some(headers[hash].height) else None
    }

    predicate Contains(hash: Hash)
      reads this
    {
      hash in headers || activeTip.hash == hash
    }

    method FilterHeadersSynced() returns (synced: bool)
      requires Valid()
      ensures synced <==> AllCommitted(View())
    {
      ghost var t := View();
      WalkStarts(t);
      var curr := activeTip.hash;
      while curr in headers
        invariant OnWalk(t, curr)
        invariant forall y | Active(t, y) && Depth(curr) < Depth(y) :: headers[y].commitment.Some?
        decreases curr
      {
        WalkStep(t, curr, curr);
        if headers[curr].commitment.None? {
          return false;
        }
        forall y | Active(t, y) && Depth(curr.header.prev) < Depth(y) ensures headers[y].commitment.Some? {
          WalkStep(t, curr, y);
        }
        curr := headers[curr].header.prev;
      }
      forall y | Active(t, y) ensures headers[y].commitment.Some? {
        WalkEnds(t, curr, y);
      }
      synced := true;
    }

    method FiltersSynced() returns (synced: bool)
      requires Valid()
      ensures synced <==> AllChecked(View())
    {
      ghost var t := View();
      WalkStarts(t);
      var curr := activeTip.hash;
      while curr in headers
        invariant OnWalk(t, curr)
        invariant forall y | Active(t, y) && Depth(curr) < Depth(y) :: headers[y].checked
        decreases curr
      {
        WalkStep(t, curr, curr);
        if !headers[curr].checked {
          return false;
        }
        forall y | Active(t, y) && Depth(curr.header.prev) < Depth(y) ensures headers[y].checked {
          WalkStep(t, curr, y);
        }
        curr := headers[curr].header.prev;
      }
      forall y | Active(t, y) ensures headers[y].checked {
        WalkEnds(t, curr, y);
      }
      synced := true;
    }

    /** Does an active header commit to this filter header? */
    method HasFilterHeader(header: FilterHeader) returns (found: bool)
      requires Valid()
      ensures found <==> CommittedHeader(View(), header)
    {
      ghost var t := View();
      WalkStarts(t);
      var curr := activeTip.hash;
      while curr in headers
        invariant OnWalk(t, curr)
        invariant forall y | Active(t, y) && Depth(curr) < Depth(y) :: !CommitsTo(t, y, header)
        decreases curr
      {
        WalkStep(t, curr, curr);
        var commitment := headers[curr].commitment;
        if commitment.Some? && commitment.value.header == header {
          assert CommitsTo(t, curr, header);
          return true;
        }
        forall y | Active(t, y) && Depth(curr.header.prev) < Depth(y) ensures !CommitsTo(t, y, header) {
          WalkStep(t, curr, y);
        }
        curr := headers[curr].header.prev;
      }
      forall y | Active(t, y) ensures !CommitsTo(t, y, header) {
        WalkEnds(t, curr, y);
      }
      found := false;
    }

    /** The lowest height of the uncommitted run below the tip, and what it stands on. */
    method UncommittedBelowTip() returns (lowest: nat, prev: Option<FilterHeader>)
      requires Valid()
      ensures (lowest, prev) == UncommittedRun(headers, activeTip.hash, activeTip.height)
    {
      StoredUnderTheirHashes(View());
      var curr := activeTip.hash;
      lowest, prev := activeTip.height, None;
      while curr in headers
        invariant prev == None
        invariant UncommittedRun(headers, curr, lowest) == UncommittedRun(headers, activeTip.hash, activeTip.height)
        decreases curr
      {
        var node := headers[curr];
        if node.commitment.Some? {
          prev := Some(node.commitment.value.header);
          return;
        }
        lowest := node.height;
        curr := node.header.prev;
      }
    }

    /** The lowest height of the unchecked run below the tip. */
    method UncheckedBelowTip() returns (lowest: nat)
      requires Valid()
      ensures lowest == UncheckedRun(headers, activeTip.hash, activeTip.height)
    {
      StoredUnderTheirHashes(View());
      var curr := activeTip.hash;
      lowest := activeTip.height;
      while curr in headers && !headers[curr].checked
        invariant UncheckedRun(headers, curr, lowest) == UncheckedRun(headers, activeTip.hash, activeTip.height)
        decreases curr
      {
        lowest := headers[curr].height;
        curr := headers[curr].header.prev;
      }
    }

    function StopHash(height: nat): (stop: Hash)
      reads this
      ensures stop == StopFor(View(), height)
    {
      var known := BlockHashAtHeight(height);
      if known.Some? then known.value else activeTip.hash
    }

    /** The last headers of the active chain, at most ten, by height. */
    method LastTen() returns (recent: map<nat, Header>)
      requires Valid()
      ensures recent == Recent(headers, activeTip.hash, 10)
    {
      ghost var t := View();
      recent := map[];
      WalkStarts(t);
      var curr, taken := activeTip.hash, 0;
      ghost var below := activeTip.height + 1;
      while curr in headers && taken < 10
        invariant OnWalk(t, curr) && taken <= 10
        invariant curr in headers ==> headers[curr].height < below
        invariant forall k | k in recent :: below <= k
        invariant Recent(headers, activeTip.hash, 10) == Recent(headers, curr, 10 - taken) + recent
        decreases curr
      {
        WalkStep(t, curr, curr);
        assert Placed(t, curr);
        var node := headers[curr];
        if node.header.prev in headers {
          assert Placed(t, node.header.prev);
        }
        RecentStep(headers, curr, 10 - taken, recent, below);
        recent := recent[node.height := node.header];
        below := node.height;
        curr, taken := node.header.prev, taken + 1;
      }
    }

    // ---------- Commitments and flags ----------

    method SetCommitment(commitment: Commitment, hash: Hash)
      requires Valid()
      modifies this`headers
      ensures headers == GraphFilters.SetCommitment(old(headers), commitment, hash)
      ensures SameShape(old(View()), View()) && Valid()
    {
      ghost var before := View();
      if hash in headers {
        headers := headers[hash := headers[hash].(commitment := Some(commitment))];
      }
      SameShapeKeeps(before, View());
    }

    method CheckFilter(hash: Hash)
      requires Valid()
      modifies this`headers
      ensures headers == SetChecked(old(headers), hash, true)
      ensures SameShape(old(View()), View()) && Valid()
    {
      ghost var before := View();
      if hash in headers {
        headers := headers[hash := headers[hash].(checked := true)];
      }
      SameShapeKeeps(before, View());
    }

    method AssumeCheckedTo(assumedHeight: nat)
      requires Valid()
      modifies this`headers
      ensures View() == AssumeChecked(old(View()), assumedHeight) && Valid()
    {
      ghost var t := View();
      WalkStarts(t);
      var curr := activeTip.hash;
      while curr in headers
        invariant OnWalk(t, curr) && headers.Keys == t.headers.Keys
        invariant forall y | y in t.headers ::
          headers[y] == if Active(t, y) && Depth(curr) < Depth(y) && t.headers[y].height <= assumedHeight
                        then t.headers[y].(checked := true) else t.headers[y]
        decreases curr
      {
        WalkStep(t, curr, curr);
        forall y | y in t.headers && Active(t, y)
          ensures Depth(curr.header.prev) < Depth(y) <==> Depth(curr) < Depth(y) || y == curr
        {
          WalkStep(t, curr, y);
        }
        var node := headers[curr];
        if node.height <= assumedHeight {
          headers := headers[curr := node.(checked := true)];
        }
        curr := node.header.prev;
      }
      forall y | Active(t, y) ensures Depth(curr) < Depth(y) {
        WalkEnds(t, curr, y);
      }
      assert headers == AssumeChecked(t, assumedHeight).headers;
      SameShapeKeeps(t, View());
    }

    method ResetAllFilters()
      requires Valid()
      modifies this`headers
      ensures View() == ResetFilters(old(View())) && Valid()
    {
      ghost var t := View();
      StoredUnderTheirHashes(t);
      var curr := activeTip.hash;
      while curr in headers
        invariant HashesMatch(headers)
        invariant ClearWalk(headers, curr) == ClearWalk(t.headers, t.tip.hash)
        decreases curr
      {
        var node := headers[curr];
        headers := headers[curr := node.(checked := false)];
        curr := node.header.prev;
      }
      for i := 0 to |candidateForks|
        invariant HashesMatch(headers)
        invariant ClearForks(headers, candidateForks[i..]) == ResetFilters(t).headers
      {
        assert candidateForks[i..][1..] == candidateForks[i + 1..];
        ghost var atFork := headers;
        curr := candidateForks[i].hash;
        while curr in headers && headers[curr].checked
          invariant HashesMatch(headers)
          invariant ClearRun(headers, curr) == ClearRun(atFork, candidateForks[i].hash)
          decreases curr
        {
          var node := headers[curr];
          headers := headers[curr := node.(checked := false)];
          curr := node.header.prev;
        }
      }
      ResetKeepsShape(t);
      SameShapeKeeps(t, View());
    }

    /** Hashes spread over the active chain, for a peer to find where the chains meet. */
    method Locators() returns (locators: seq<Hash>)
      ensures locators == Reversed([activeTip.hash] + LocatorHashes(View(), LOCATOR_INDEX))
    {
      locators := LocatorsAt(LOCATOR_INDEX);
    }

    /** The known hashes at the given distances below the tip, oldest first. */
    method LocatorsAt(steps: seq<nat>) returns (locators: seq<Hash>)
      ensures locators == Reversed([activeTip.hash] + LocatorHashes(View(), steps))
    {
      var found, i := [activeTip.hash], 0;
      assert steps[0..] == steps;
      while i < |steps| && steps[i] <= activeTip.height
            && BlockHashAtHeight(activeTip.height - steps[i]).Some?
        invariant i <= |steps| && LocatedBefore(View(), steps, i, found)
      {
        LocatorStep(View(), steps, i, found);
        found := found + [BlockHashAtHeight(activeTip.height - steps[i]).value];
        i := i + 1;
      }
      assert LocatorHashes(View(), steps[i..]) == [];
      locators := Reversed(found);
    }
  }

  /** `found` holds the tip and the locators at the first `i` distances. */
  ghost predicate LocatedBefore(t: Tree, steps: seq<nat>, i: nat, found: seq<Hash>)
    requires i <= |steps|
  {
    found + LocatorHashes(t, steps[i..]) == [t.tip.hash] + LocatorHashes(t, steps)
  }

  lemma LocatorStep(t: Tree, steps: seq<nat>, i: nat, found: seq<Hash>)
    requires i < |steps| && LocatedBefore(t, steps, i, found)
    requires steps[i] <= t.tip.height && BlockHashAt(t, t.tip.height - steps[i]).Some?
    ensures LocatedBefore(t, steps, i + 1, found + [BlockHashAt(t, t.tip.height - steps[i]).value])
  {
    var rest, hash := steps[i..], BlockHashAt(t, t.tip.height - steps[i]).value;
    assert rest[1..] == steps[i + 1..] && rest[0] == steps[i];
    assert LocatorHashes(t, rest) == [hash] + LocatorHashes(t, rest[1..]);
    assert found + LocatorHashes(t, rest) == found + [hash] + LocatorHashes(t, rest[1..]);
  }

  /** One header moves from what is still to be collected into what has been. */
  lemma RecentStep(hs: map<Hash, BlockNode>, x: Hash, n: nat, above: map<nat, Header>, below: nat)
    requires x in hs && x == hs[x].header.BlockHash() && 0 < n
    requires hs[x].height < below && forall k | k in above :: below <= k
    ensures Recent(hs, x, n) + above
         == Recent(hs, hs[x].header.prev, n - 1) + above[hs[x].height := hs[x].header]
  {
    assert hs[x].height !in above;
  }

  lemma ResetKeepsShape(t: Tree)
    requires Graph.Valid(t)
    ensures SameShape(t, ResetFilters(t))
  {
    if y :| y in t.headers {
      ResetKeepsFlagIff(t, y);
    } else {
      assert t.headers == map[];
      NothingToClear(t.headers, t.forks);
    }
  }

  lemma {:induction false} NothingToClear(hs: map<Hash, BlockNode>, forks: seq<Tip>)
    requires hs == map[]
    ensures ClearForks(hs, forks) == hs
    decreases |forks|
  {
    if forks != [] {
      NothingToClear(hs, forks[1..]);
    }
  }

  /** The hashes at the given distances below the tip, up to the first that is not known. */
  ghost function LocatorHashes(t: Tree, steps: seq<nat>): seq<Hash> {
    if steps == [] || t.tip.height < steps[0] || BlockHashAt(t, t.tip.height - steps[0]).None? then []
    else [BlockHashAt(t, t.tip.height - steps[0]).value] + LocatorHashes(t, steps[1..])
  }

  lemma {:induction false} LocatorIsActive(t: Tree, steps: seq<nat>, i: nat)
    requires Graph.Valid(t) && Exact(t) && t.headers != map[] && i < |LocatorHashes(t, steps)|
    ensures i < |steps| && steps[i] <= t.tip.height
    ensures t.origin.height < t.tip.height - steps[i]
    ensures LocatorHashes(t, steps)[i] == AtHeight(t, t.tip.height - steps[i])
  {
    BlockHashAtIsActive(t, t.tip.height - steps[0]);
    if 0 < i {
      LocatorIsActive(t, steps[1..], i - 1);
    }
  }
}
