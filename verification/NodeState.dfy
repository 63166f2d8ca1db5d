/** The phase machine of the node, one message or one turn of its loop at a time. */
module NodeState {
  import opened Commons
  import opened Hashes
  import opened Graph
  import opened GraphFilters
  import opened BlockTrees
  import opened FilterHeaders
  import opened ChainState
  import HeaderStores
  import BlockQueues

  datatype Phase = Behind | HeadersSynced | FilterHeadersSynced | FiltersSynced | TransactionsSynced

  datatype Client = Client(phase: Phase, chain: Chain)

  /** What is sent to peers. */
  datatype Reply =
    | GetHeaders(locators: seq<Hash>)
    | GetFilterHeaders(filterHeaders: FilterRequest)
    | GetFilters(filters: FilterRequest)
    | GetBlock(locator: Hash)
    | Disconnect

  datatype Input =
    | Advance(stale: bool)
    | PopQueue(now: nat)
    | HeadersMessage(peer: Peer, headers: seq<Header>, fault: HeaderStores.Fault)
    | FilterHeadersMessage(peer: Peer, filterHeaders: CFHeaders)
    | FilterMessage(peer: Peer, filter: CFilter)
    | BlockMessage(peer: Peer, block: Block)
    | Inventory(peer: Peer, blocks: seq<Hash>)
    | VersionMessage(peer: Peer, height: nat, version: Version)
    | PeersLeft(live: set<Peer>)
    | AddScript(script: Script)
    | Rescan

  /** What the handshake looks at: the protocol version and two service flags. */
  datatype Version = Version(protocol: nat, network: bool, compactFilters: bool)

  const WTXID_VERSION: nat := 70_016

  const U32_MAX: nat := 0xFFFF_FFFF

  // ---------- Requests ----------

  ghost function Locators(t: Tree): seq<Hash> {
    Reversed([t.tip.hash] + LocatorHashes(t, LOCATOR_INDEX))
  }

  ghost function NextStatefulMessage(c: Chain): (Chain, Option<Reply>) {
    if !IsSynced(c) then (c, Some(GetHeaders(Locators(c.tree))))
    else if !AllCommitted(c.tree) then
      var (c', request) := NextCFHeaderMessage(c);
      (c', Some(GetFilterHeaders(request)))
    else if !AllChecked(c.tree) then
      var (c', request) := NextFilterMessage(c);
      (c', Some(GetFilters(request)))
    else (c, None)
  }

  // ---------- Turns ----------

  ghost function AdvanceState(n: Client): Client {
    var c := n.chain;
    match n.phase
    case Behind => if IsSynced(c) then n.(phase := HeadersSynced) else n
    case HeadersSynced => if AllCommitted(c.tree) then n.(phase := FilterHeadersSynced) else n
    case FilterHeadersSynced => if AllChecked(c.tree) then n.(phase := FiltersSynced) else n
    case FiltersSynced =>
      if c.queue.want.None? && c.queue.queue == [] then
        var t := c.tree;
        var update := Synced(t.tip.height, t.tip.hash, Recent(t.headers, t.tip.hash, 10));
        Client(TransactionsSynced, c.(events := c.events + [update]))
      else n
    case TransactionsSynced => n
  }

  ghost function PopBlockQueue(n: Client, now: nat): (Client, Option<Reply>) {
    if n.phase != FilterHeadersSynced && n.phase != FiltersSynced then (n, None)
    else
      var (queue, request) := BlockQueues.Pop(n.chain.queue, now);
      (n.(chain := n.chain.(queue := queue)), if request.Some? then Some(GetBlock(request.value)) else None)
  }

  // ---------- Messages ----------

  /** Too old, or unable to serve a node that has its headers. */
  predicate Unfit(phase: Phase, version: Version) {
    version.protocol < WTXID_VERSION || (phase != Behind && !(version.compactFilters && version.network))
  }

  ghost function HandleVersion(n: Client, peer: Peer, height: nat, version: Version): (Client, Option<Reply>) {
    (n.(chain := n.chain.(heights := n.chain.heights[peer := height])),
     Some(if Unfit(n.phase, version) then Disconnect else GetHeaders(Locators(n.chain.tree))))
  }

  ghost function HandleHeaders(n: Client, hs: seq<Header>, fault: HeaderStores.Fault): (Client, Option<Reply>) {
    var (c, error) := SyncChain(n.chain, hs, fault);
    if error.Some? && (error.value != EmptyMessage || !IsSynced(c)) then (n.(chain := c), Some(Disconnect))
    else
      var (c', reply) := NextStatefulMessage(c);
      (n.(chain := c'), reply)
  }

  ghost function HandleCFHeaders(n: Client, peer: Peer, message: CFHeaders): (Client, Option<Reply>)
    requires BelowQuorum(n.chain.request.agreement)
  {
    var (c, result) := SyncCFHeaders(n.chain, peer, message);
    match result
    case CFHeaderError(_) => (n.(chain := c), Some(Disconnect))
    case Counted(outcome) =>
      match outcome
      case AddedToQueue => (n.(chain := c), None)
      case Conflict => (n.(chain := c), Some(Disconnect))
      case Extended =>
        var (c', reply) := NextStatefulMessage(c);
        (n.(chain := c'), reply)
  }

  ghost function HandleFilter(n: Client, f: CFilter): (Client, Option<Reply>) {
    var (c, result) := SyncFilter(n.chain, f);
    (n.(chain := c),
     match result
     case FilterError(_) => Some(Disconnect)
     case FilterOk(next) => if next.Some? then Some(GetFilters(next.value)) else None)
  }

  ghost function HandleBlock(n: Client, b: Block): (Client, Option<Reply>) {
    var (c, error) := CheckSendBlock(n.chain, b);
    (n.(chain := c), if error.Some? then Some(Disconnect) else None)
  }

  function SaturatingSucc(height: nat): nat {
    if height < U32_MAX then height + 1 else height
  }

  ghost function Increments(heights: map<Peer, nat>, peer: Peer, times: nat): map<Peer, nat> {
    if times == 0 || peer !in heights then heights
    else Increments(heights[peer := SaturatingSucc(heights[peer])], peer, times - 1)
  }

  ghost predicate Contains(t: Tree, x: Hash) {
    x in t.headers || x == t.tip.hash
  }

  ghost function HandleInventoryBlocks(n: Client, peer: Peer, blocks: seq<Hash>): (Client, Option<Reply>) {
    var c := n.chain.(heights := Increments(n.chain.heights, peer, |blocks|));
    if n.phase == Behind || (forall x | x in blocks :: Contains(c.tree, x)) then (n.(chain := c), None)
    else (Client(Behind, ClearRequests(c)), Some(GetHeaders(Locators(c.tree))))
  }

  ghost function RescanFilters(n: Client): (Client, Option<Reply>) {
    if n.phase == Behind || n.phase == HeadersSynced then (n, None)
    else
      var (c, request) := NextFilterMessage(ClearFilters(n.chain));
      (Client(FilterHeadersSynced, c), Some(GetFilters(request)))
  }

  ghost function Step(n: Client, input: Input): (Client, Option<Reply>)
    requires BelowQuorum(n.chain.request.agreement)
  {
    match input
    case Advance(stale) =>
      (AdvanceState(n), if n.phase == TransactionsSynced && stale then Some(Disconnect) else None)
    case PopQueue(now) => PopBlockQueue(n, now)
    case HeadersMessage(_, hs, fault) => HandleHeaders(n, hs, fault)
    case FilterHeadersMessage(peer, message) => HandleCFHeaders(n, peer, message)
    case FilterMessage(_, f) => HandleFilter(n, f)
    case BlockMessage(_, b) => HandleBlock(n, b)
    case Inventory(peer, blocks) => HandleInventoryBlocks(n, peer, blocks)
    case VersionMessage(peer, height, version) => HandleVersion(n, peer, height, version)
    case PeersLeft(live) =>
      (n.(chain := n.chain.(heights := map p | p in n.chain.heights && p in live :: n.chain.heights[p])), None)
    case AddScript(script) => (n.(chain := n.chain.(scripts := n.chain.scripts + {script})), None)
    case Rescan => RescanFilters(n)
  }
}
