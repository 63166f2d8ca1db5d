/** The block tree as a value: what `accept_header` and its helpers compute.

    `Accept` is the specification that the class in BlockTree.dfy is proved against.
    The other Graph*.dfy files prove what it promises.
*/
module Graph {
  import opened Hashes
  import opened Filters

  /** The consensus parameters of a network. Difficulty arithmetic and proof of work are
      left uninterpreted: any functions will do. */
  datatype Network = Network(
    noPowRetargeting: bool,
    allowMinDifficulty: bool,
    interval: Pos,
    genesis: Header,
    retarget: (Header, Header) -> Bits,
    validPow: Header -> bool,
    transitionOk: (Bits, Bits) -> bool)

  datatype BlockNode = BlockNode(
    height: nat, header: Header, accWork: nat,
    commitment: Option<Commitment>, checked: bool)

  datatype Tip = Tip(hash: Hash, height: nat, nextWork: Option<Bits>)

  datatype Indexed = Indexed(height: nat, header: Header)

  datatype Rejection =
    | InvalidPow(expected: Bits, got: Bits)
    | UnknownPrevHash(prev: Hash)

  datatype Changes =
    | Accepted(connectedAt: Indexed)
    | Duplicate
    | ExtendedFork(forkedAt: Indexed)
    | Reorganization(accepted: seq<Indexed>, disconnected: seq<Indexed>)
    | Rejected(reason: Rejection)

  /** The block below the oldest header that the tree stores. Its header is not stored. */
  datatype Origin = Origin(hash: Hash, height: int)

  /** `origin` is not a field of the program: it records where the tree was started. */
  datatype Tree = Tree(
    net: Network,
    origin: Origin,
    index: map<nat, Hash>,
    headers: map<Hash, BlockNode>,
    tip: Tip,
    forks: seq<Tip>)

  function FreshNode(height: nat, header: Header, work: nat): BlockNode {
    BlockNode(height, header, work, None, false)
  }

  // ---------- The three ways to start a tree ----------

  ghost function FromTip(net: Network, tip: Tip): Tree {
    Tree(net, Origin(tip.hash, tip.height), map[], map[], tip, [])
  }

  ghost function FromGenesis(net: Network): Tree {
    var g := net.genesis;
    Tree(net, Origin(g.prev, -1), map[0 := g.BlockHash()],
         map[g.BlockHash() := FreshNode(0, g, g.bits.work)],
         Tip(g.BlockHash(), 0, Some(g.bits)), [])
  }

  ghost function FromHeader(net: Network, height: nat, header: Header): Tree {
    Tree(net, Origin(header.prev, height - 1), map[],
         map[header.BlockHash() := FreshNode(height, header, header.bits.work)],
         Tip(header.BlockHash(), height, Some(header.bits)), [])
  }

  // ---------- Accepting a header ----------

  predicate IsAdjustment(net: Network, height: nat) {
    height % net.interval == 0
  }

  predicate Retargets(net: Network) {
    !net.noPowRetargeting && !net.allowMinDifficulty
  }

  /** The retarget of two headers found through the height index. */
  ghost function ComputeNextWork(t: Tree, height: nat): Option<Bits> {
    var interval := t.net.interval as int;
    if height < interval || height < 1 then None
    else if height - interval !in t.index || height - 1 !in t.index then None
    else
      var first, last := t.index[height - interval], t.index[height - 1];
      if first !in t.headers || last !in t.headers then None
      else Some(t.net.retarget(t.headers[first].header, t.headers[last].header))
  }

  /** The bits demanded of a header at `height`, given what its parent hands down. */
  ghost function NextWork(t: Tree, height: nat, inherited: Option<Bits>): Option<Bits> {
    if Retargets(t.net) && IsAdjustment(t.net, height) then ComputeNextWork(t, height)
    else inherited
  }

  ghost predicate BadBits(demanded: Option<Bits>, h: Header) {
    demanded.Some? && h.bits != demanded.value
  }

  ghost function WorkOf(t: Tree, x: Hash): nat {
    if x in t.headers then t.headers[x].accWork else 0
  }

  /** The position of the first fork tip with the given hash, or the number of forks. */
  ghost function Position(forks: seq<Tip>, x: Hash): (i: nat)
    ensures i <= |forks|
    ensures forall j :: 0 <= j < i ==> forks[j].hash != x
    ensures i < |forks| ==> forks[i].hash == x
  {
    if forks == [] || forks[0].hash == x then 0
    else 1 + Position(forks[1..], x)
  }

  ghost function SwapRemove(forks: seq<Tip>, i: nat): seq<Tip>
    requires i < |forks|
  {
    var last := |forks| - 1;
    if i == last then forks[..last] else forks[..last][i := forks[last]]
  }

  datatype Switched = Switched(
    index: map<nat, Hash>, accepted: seq<Indexed>, disconnected: seq<Indexed>)

  /** Repair the height index on the way down from `x`, stopping at the first height
      that already holds the right hash. */
  ghost function Switch(hs: map<Hash, BlockNode>, index: map<nat, Hash>, x: Hash): Switched
    decreases x
  {
    if !x.Of? || x !in hs then Switched(index, [], [])
    else
      var n := hs[x];
      if n.height in index && index[n.height] == x then Switched(index, [], [])
      else
        var rest := Switch(hs, index[n.height := x], x.header.prev);
        var gone :=
          if n.height in index && index[n.height] in hs
          then [Indexed(hs[index[n.height]].height, hs[index[n.height]].header)] else [];
        Switched(rest.index, [Indexed(n.height, n.header)] + rest.accepted,
                 gone + rest.disconnected)
  }

  ghost function ExtendTip(t: Tree, h: Header): (Tree, Changes) {
    var height := t.tip.height + 1;
    var work := NextWork(t, height, t.tip.nextWork);
    if BadBits(work, h) then (t, Rejected(InvalidPow(work.value, h.bits)))
    else
      var node := FreshNode(height, h, WorkOf(t, h.prev) + h.bits.work);
      (t.(headers := t.headers[h.BlockHash() := node],
          tip := Tip(h.BlockHash(), height, work),
          index := t.index[height := h.BlockHash()]),
       Accepted(Indexed(height, h)))
  }

  /** Make `tip` the active tip; the old tip becomes a candidate. */
  ghost function AdoptFork(t: Tree, tip: Tip): (Tree, Changes) {
    var s := Switch(t.headers, t.index, tip.hash);
    (t.(forks := t.forks + [t.tip], tip := tip, index := s.index),
     Reorganization(s.accepted, s.disconnected))
  }

  ghost function ExtendCandidate(t: Tree, h: Header, i: nat): (Tree, Changes)
    requires i < |t.forks|
  {
    var fork := t.forks[i];
    var t1 := t.(forks := SwapRemove(t.forks, i));
    if fork.hash !in t.headers then (t1, Rejected(UnknownPrevHash(h.prev)))
    else
      var parent := t.headers[fork.hash];
      var height := parent.height + 1;
      var work := NextWork(t, height, fork.nextWork);
      if BadBits(work, h) then (t1, Rejected(InvalidPow(work.value, h.bits)))
      else
        var accWork := parent.accWork + h.bits.work;
        var tip := Tip(h.BlockHash(), height, work);
        var hs := t.headers[h.BlockHash() := FreshNode(height, h, accWork)];
        if WorkOf(t.(headers := hs), t.tip.hash) < accWork then AdoptFork(t1.(headers := hs), tip)
        else
          (t1.(headers := hs, forks := t1.forks + [tip]), ExtendedFork(Indexed(height, h)))
  }

  ghost function StartFork(t: Tree, h: Header): (Tree, Changes)
    requires h.prev in t.headers
  {
    var parent := t.headers[h.prev];
    var height := parent.height + 1;
    var work := NextWork(t, height, Some(parent.header.bits));
    if BadBits(work, h) then (t, Rejected(InvalidPow(work.value, h.bits)))
    else
      var tip := Tip(h.BlockHash(), height, work);
      var node := FreshNode(height, h, parent.accWork + h.bits.work);
      (t.(headers := t.headers[h.BlockHash() := node], forks := t.forks + [tip]),
       ExtendedFork(Indexed(height, h)))
  }

  ghost function Accept(t: Tree, h: Header): (Tree, Changes) {
    var i := Position(t.forks, h.prev);
    if h.prev == t.tip.hash then ExtendTip(t, h)
    else if h.BlockHash() in t.headers then (t, Duplicate)
    else if i < |t.forks| then ExtendCandidate(t, h, i)
    else if h.prev in t.headers then StartFork(t, h)
    else (t, Rejected(UnknownPrevHash(h.prev)))
  }

  // ---------- The active chain ----------

  /** A stored header on the walk from the tip along `prev_blockhash`. */
  ghost predicate Active(t: Tree, x: Hash) {
    x in t.headers && Descends(t.tip.hash, x)
  }

  /** The walk itself, newest first, down to but not including `stop`. */
  ghost function Walk(hs: map<Hash, BlockNode>, x: Hash, stop: Hash): seq<Hash> {
    if !x.Of? || x !in hs || x == stop then []
    else [x] + Walk(hs, x.header.prev, stop)
  }

  ghost function Report(hs: map<Hash, BlockNode>, x: Hash, stop: Hash): seq<Indexed> {
    if !x.Of? || x !in hs || x == stop then []
    else [Indexed(hs[x].height, hs[x].header)] + Report(hs, x.header.prev, stop)
  }

  ghost predicate Childless(t: Tree, x: Hash) {
    forall y | y in t.headers :: t.headers[y].header.prev != x
  }

  ghost predicate IsCandidate(t: Tree, x: Hash) {
    exists i :: 0 <= i < |t.forks| && t.forks[i].hash == x
  }

  // ---------- The invariant of every tree ----------

  /** The cached fields of a stored header agree with its place in the tree. */
  ghost predicate Placed(t: Tree, x: Hash)
    requires x in t.headers
  {
    var n := t.headers[x];
    && x == n.header.BlockHash()
    && (n.header.prev in t.headers || n.header.prev == t.origin.hash)
    && Depth(t.origin.hash) < Depth(x)
    && n.height == t.origin.height + Depth(x) - Depth(t.origin.hash)
    && n.accWork == WorkOf(t, n.header.prev) + n.header.bits.work
  }

  ghost predicate AllPlaced(t: Tree) {
    forall x {:trigger Placed(t, x)} | x in t.headers :: Placed(t, x)
  }

  ghost predicate IsRoot(t: Tree, x: Hash) {
    x in t.headers && t.headers[x].header.prev == t.origin.hash
  }

  ghost predicate OneRoot(t: Tree) {
    forall x, y | IsRoot(t, x) && IsRoot(t, y) :: x == y
  }

  ghost predicate TipPlaced(t: Tree) {
    && Childless(t, t.tip.hash)
    && (if t.headers == map[] then t.tip.hash == t.origin.hash && t.tip.height == t.origin.height
        else t.tip.hash in t.headers && t.tip.height == t.headers[t.tip.hash].height)
  }

  /** Every entry of the index is a stored header of that height. */
  ghost predicate IndexOver(hs: map<Hash, BlockNode>, index: map<nat, Hash>) {
    forall k | k in index :: index[k] in hs && hs[index[k]].height == k
  }

  ghost predicate GoodCandidate(t: Tree, f: Tip) {
    && f.hash in t.headers && f.height == t.headers[f.hash].height
    && Childless(t, f.hash) && f.hash != t.tip.hash
  }

  /** Candidate forks are childless stored headers other than the tip, without repeats. */
  ghost predicate CandidatesAreLeaves(t: Tree) {
    && (forall i | 0 <= i < |t.forks| :: GoodCandidate(t, t.forks[i]))
    && (forall i, j | 0 <= i < j < |t.forks| :: t.forks[i].hash != t.forks[j].hash)
  }

  /** Every childless stored header is the tip or a candidate fork. */
  ghost predicate LeavesAreCandidates(t: Tree) {
    forall x | x in t.headers && Childless(t, x) :: x == t.tip.hash || IsCandidate(t, x)
  }

  ghost predicate Valid(t: Tree) {
    && -1 <= t.origin.height
    && AllPlaced(t) && OneRoot(t) && TipPlaced(t) && IndexOver(t.headers, t.index) && CandidatesAreLeaves(t)
  }
}
