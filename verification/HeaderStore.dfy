/** The header table and the changes staged for it. */
module HeaderStores {
  import opened Hashes
  import opened Graph
  import opened GraphIndex

  datatype HeaderChanges =
    | Connected(connected: Indexed)
    | Reorganized(accepted: seq<Indexed>, reorganized: seq<Indexed>)

  /** Where a write fails, if it does. The transaction is rolled back in every case. */
  datatype Fault = NoFault | AtBegin | DuringDelete | DuringInsert | AtCommit

  datatype Store = Store(table: map<nat, Header>, accepted: map<nat, Header>, disconnected: set<Hash>)

  // ---------- What staging means ----------

  function HashesOf(list: seq<Indexed>): (hashes: set<Hash>)
    ensures forall i | 0 <= i < |list| :: list[i].header.BlockHash() in hashes
    ensures forall x | x in hashes :: exists i :: 0 <= i < |list| && list[i].header.BlockHash() == x
  {
    set i | i in list :: i.header.BlockHash()
  }

  function Without(rows: map<nat, Header>, hashes: set<Hash>): map<nat, Header> {
    map k | k in rows && rows[k].BlockHash() !in hashes :: rows[k]
  }

  /** Apply a change to the table at once. */
  ghost function Eager(table: map<nat, Header>, c: HeaderChanges): map<nat, Header> {
    match c
    case Connected(i) => table[i.height := i.header]
    case Reorganized(accepted, reorganized) => Without(table, HashesOf(reorganized)) + Rows(accepted)
  }

  /** Remember a change for later. */
  ghost function Stage(s: Store, c: HeaderChanges): Store {
    match c
    case Connected(i) => s.(accepted := s.accepted[i.height := i.header])
    case Reorganized(accepted, reorganized) =>
      s.(accepted := Without(s.accepted, HashesOf(reorganized)) + Rows(accepted),
         disconnected := s.disconnected + HashesOf(reorganized))
  }

  /** The table as it will be once the staged changes are written. */
  ghost function Pending(s: Store): map<nat, Header> {
    Without(s.table, s.disconnected) + s.accepted
  }

  ghost function Write(s: Store, fault: Fault): (Store, bool) {
    match fault
    case AtBegin => (s, false)
    case DuringDelete =>
      if s.disconnected == {} then (Store(Pending(s), map[], {}), true) else (s.(disconnected := {}), false)
    case DuringInsert =>
      if s.accepted == map[] then (Store(Pending(s), map[], {}), true) else (Store(s.table, map[], {}), false)
    case AtCommit => (Store(s.table, map[], {}), false)
    case NoFault => (Store(Pending(s), map[], {}), true)
  }

  // ---------- Staging against eager application ----------

  /** The reorganization drops a staged row without replacing it, and the table still has a
      live row at that height. */
  ghost predicate Uncovers(s: Store, c: HeaderChanges) {
    && c.Reorganized?
    && exists k :: k in s.accepted && s.accepted[k].BlockHash() in HashesOf(c.reorganized)
                   && k !in Rows(c.accepted)
                   && k in Without(s.table, s.disconnected + HashesOf(c.reorganized))
  }

  function Row(rows: map<nat, Header>, k: nat): Option<Header> {
    if k in rows then Some(rows[k]) else None
  }

  lemma SameRows(a: map<nat, Header>, b: map<nat, Header>)
    requires forall k :: Row(a, k) == Row(b, k)
    ensures a == b
  {
    forall k | k in a ensures k in b && a[k] == b[k] {
      assert Row(a, k) == Row(b, k);
    }
    forall k | k in b ensures k in a {
      assert Row(a, k) == Row(b, k);
    }
  }

  lemma StagedRow(s: Store, removed: set<Hash>, added: map<nat, Header>, k: nat)
    ensures var live := Without(s.table, s.disconnected + removed);
            var staged := live + (Without(s.accepted, removed) + added);
            var eager := Without(Pending(s), removed) + added;
            if k !in added && k in s.accepted && s.accepted[k].BlockHash() in removed
            then Row(eager, k) == None && Row(staged, k) == Row(live, k)
            else Row(staged, k) == Row(eager, k)
  {
  }

  /** One staged change has its eager effect, unless it uncovers an older row. */
  lemma StageIsEagerIff(s: Store, c: HeaderChanges)
    ensures Pending(Stage(s, c)) == Eager(Pending(s), c) <==> !Uncovers(s, c)
  {
    var staged, eager := Pending(Stage(s, c)), Eager(Pending(s), c);
    if c.Reorganized? {
      var r, added := HashesOf(c.reorganized), Rows(c.accepted);
      if Uncovers(s, c) {
        var k :| k in s.accepted && s.accepted[k].BlockHash() in r && k !in added
                 && k in Without(s.table, s.disconnected + r);
        StagedRow(s, r, added, k);
      } else {
        forall k ensures Row(staged, k) == Row(eager, k) {
          StagedRow(s, r, added, k);
        }
        SameRows(staged, eager);
      }
    } else {
      assert staged == eager;
    }
  }

  /** A staged row that stands in front of a live row of the table repeats that row. */
  ghost predicate NoConflict(s: Store) {
    forall k | k in s.accepted && k in Without(s.table, s.disconnected) :: s.accepted[k] == s.table[k]
  }

  /** The heights that the change fills are free once the disconnected rows are gone, or
      already hold the same row. */
  ghost predicate FillsFreeHeights(s: Store, c: HeaderChanges) {
    match c
    case Connected(i) => i.height in Without(s.table, s.disconnected) ==> s.table[i.height] == i.header
    case Reorganized(accepted, reorganized) =>
      forall k | k in Rows(accepted) && k in Without(s.table, s.disconnected + HashesOf(reorganized)) ::
        s.table[k] == Rows(accepted)[k]
  }

  lemma StageKeepsNoConflict(s: Store, c: HeaderChanges)
    requires NoConflict(s) && FillsFreeHeights(s, c)
    ensures NoConflict(Stage(s, c)) && Pending(Stage(s, c)) == Eager(Pending(s), c)
  {
    StageIsEagerIff(s, c);
  }

  ghost function StageAll(s: Store, cs: seq<HeaderChanges>): Store
    decreases |cs|
  {
    if cs == [] then s else StageAll(Stage(s, cs[0]), cs[1..])
  }

  ghost function EagerAll(table: map<nat, Header>, cs: seq<HeaderChanges>): map<nat, Header>
    decreases |cs|
  {
    if cs == [] then table else EagerAll(Eager(table, cs[0]), cs[1..])
  }

  ghost predicate AllFillFreeHeights(s: Store, cs: seq<HeaderChanges>)
    decreases |cs|
  {
    cs == [] || (FillsFreeHeights(s, cs[0]) && AllFillFreeHeights(Stage(s, cs[0]), cs[1..]))
  }

  lemma {:induction false} StagedBatchIsEager(s: Store, cs: seq<HeaderChanges>)
    requires NoConflict(s) && AllFillFreeHeights(s, cs)
    ensures NoConflict(StageAll(s, cs)) && Pending(StageAll(s, cs)) == EagerAll(Pending(s), cs)
    decreases |cs|
  {
    if cs != [] {
      StageKeepsNoConflict(s, cs[0]);
      StagedBatchIsEager(Stage(s, cs[0]), cs[1..]);
    }
  }

  /** From a clean store, one write of a batch leaves the table that eager changes would. */
  lemma WriteIsEager(table: map<nat, Header>, cs: seq<HeaderChanges>)
    requires AllFillFreeHeights(Store(table, map[], {}), cs)
    ensures Write(StageAll(Store(table, map[], {}), cs), NoFault)
         == (Store(EagerAll(table, cs), map[], {}), true)
  {
    var s := Store(table, map[], {});
    assert Pending(s) == table;
    StagedBatchIsEager(s, cs);
  }

  /** A disconnected row of the table has no staged row in its place. */
  ghost predicate LeavesGap(s: Store) {
    exists k :: k in s.table && s.table[k].BlockHash() in s.disconnected && k !in s.accepted
  }

  /** A staged row is not in the table yet. */
  ghost predicate BringsNew(s: Store) {
    exists k :: k in s.accepted && !(k in s.table && s.table[k] == s.accepted[k])
  }

  /** What a write with this fault would lose. A write that has nothing to delete, or nothing to
      insert, cannot fail there. */
  ghost predicate Loses(s: Store, fault: Fault) {
    match fault
    case NoFault => false
    case AtBegin => false
    case DuringDelete => LeavesGap(s)
    case DuringInsert => s.accepted != map[] && (LeavesGap(s) || BringsNew(s))
    case AtCommit => LeavesGap(s) || BringsNew(s)
  }

  lemma TableIsPendingIff(s: Store)
    ensures Pending(s) == s.table <==> !LeavesGap(s) && !BringsNew(s)
  {
    if k :| k in s.table && s.table[k].BlockHash() in s.disconnected && k !in s.accepted {
      assert k !in Pending(s);
    } else if k :| k in s.accepted && !(k in s.table && s.table[k] == s.accepted[k]) {
      assert k in Pending(s) && Pending(s)[k] == s.accepted[k];
    } else {
      assert forall k :: k in Pending(s) <==> k in s.table;
    }
  }

  /** A failed write leaves the table alone. What is pending stays the same if and only if the
      write has nothing to lose: nothing when it fails at the start; the deletions that leave a
      gap when it fails among them; everything staged that the table does not hold already when
      it fails later. */
  lemma FailedWriteLoses(s: Store, fault: Fault)
    ensures !Write(s, fault).1 ==> Write(s, fault).0.table == s.table
    ensures Pending(Write(s, fault).0) == Pending(s) <==> !Loses(s, fault)
  {
    var s' := Write(s, fault).0;
    assert Without(s.table, {}) == s.table && Pending(Store(Pending(s), map[], {})) == Pending(s);
    assert Pending(Store(s.table, map[], {})) == s.table;
    TableIsPendingIff(s);
    if fault.DuringDelete? {
      if k :| k in s.table && s.table[k].BlockHash() in s.disconnected && k !in s.accepted {
        assert k in Pending(s') && k !in Pending(s);
      } else {
        assert Pending(s') == Pending(s);
      }
    }
  }

  // ---------- Loading ----------

  ghost predicate Follows(table: map<nat, Header>, k: nat, l: nat)
    requires k in table && l in table
  {
    table[l].prev == table[k].BlockHash()
  }

  /** Rows that are next to one another in the range link up. */
  ghost predicate LinkedBetween(table: map<nat, Header>, lo: nat, hi: nat) {
    forall k, l | lo <= k < l < hi && k in table && l in table && (forall m | k < m < l :: m !in table) ::
      Follows(table, k, l)
  }

  lemma OneMoreHash(list: seq<Indexed>, i: nat)
    requires i < |list|
    ensures HashesOf(list[..i + 1]) == HashesOf(list[..i]) + {list[i].header.BlockHash()}
  {
    assert list[..i + 1] == list[..i] + [list[i]];
  }

  lemma RowsStep(rows: map<nat, Header>, list: seq<Indexed>, i: nat)
    requires i < |list|
    ensures rows + Rows(list[i..]) == rows[list[i].height := list[i].header] + Rows(list[i + 1..])
  {
    assert list[i..][1..] == list[i + 1..];
  }

  /** `last` is the highest row below `k` in the range, if there is one. */
  ghost predicate LastBelow(table: map<nat, Header>, lo: nat, k: nat, last: Option<nat>) {
    && (last.Some? ==> lo <= last.value < k && last.value in table)
    && (forall m | (if last.Some? then last.value + 1 else lo) <= m < k :: m !in table)
  }

  lemma LinkStep(table: map<nat, Header>, lo: nat, k: nat, last: Option<nat>)
    requires lo <= k && LinkedBetween(table, lo, k) && LastBelow(table, lo, k, last)
    ensures LinkedBetween(table, lo, k + 1)
       <==> (k in table && last.Some? ==> Follows(table, last.value, k))
    ensures LastBelow(table, lo, k + 1, if k in table then Some(k) else last)
  {
  }

  lemma BrokenPrefix(table: map<nat, Header>, lo: nat, k: nat, hi: nat)
    requires k <= hi && !LinkedBetween(table, lo, k)
    ensures !LinkedBetween(table, lo, hi)
  {
  }

  class HeaderStore {
    /** The table that the database holds. */
    var table: map<nat, Header>
    var accepted: map<nat, Header>
    var disconnected: set<Hash>

    ghost function View(): Store
      reads this
    {
      Store(table, accepted, disconnected)
    }

    constructor (table: map<nat, Header>)
      ensures View() == Store(table, map[], {})
    {
      this.table, accepted, disconnected := table, map[], {};
    }

    method StageChanges(changes: HeaderChanges)
      modifies this`accepted, this`disconnected
      ensures View() == Stage(old(View()), changes)
    {
      match changes
      case Connected(i) =>
        accepted := accepted[i.height := i.header];
      case Reorganized(connections, reorganized) =>
        DropStaged(reorganized);
        InsertStaged(connections);
    }

    method DropStaged(reorganized: seq<Indexed>)
      modifies this`accepted, this`disconnected
      ensures accepted == Without(old(accepted), HashesOf(reorganized))
      ensures disconnected == old(disconnected) + HashesOf(reorganized)
    {
      for i := 0 to |reorganized|
        invariant accepted == Without(old(accepted), HashesOf(reorganized[..i]))
        invariant disconnected == old(disconnected) + HashesOf(reorganized[..i])
      {
        var removedHash := reorganized[i].header.BlockHash();
        OneMoreHash(reorganized, i);
        accepted := map k | k in accepted && accepted[k].BlockHash() != removedHash :: accepted[k];
        disconnected := disconnected + {removedHash};
      }
      assert reorganized[..|reorganized|] == reorganized;
    }

    method InsertStaged(connections: seq<Indexed>)
      modifies this`accepted
      ensures accepted == old(accepted) + Rows(connections)
    {
      for i := 0 to |connections|
        invariant accepted + Rows(connections[i..]) == old(accepted) + Rows(connections)
      {
        RowsStep(accepted, connections, i);
        accepted := accepted[connections[i].height := connections[i].header];
      }
    }

    /** Write what is staged in one transaction, which `fault` may interrupt. */
    method WriteChanges(fault: Fault) returns (ok: bool)
      modifies this
      ensures (View(), ok) == Write(old(View()), fault)
    {
      if fault == AtBegin {
        return false;
      }
      var tx, removals := table, disconnected;
      disconnected := {};
      if removals != {} && fault == DuringDelete {
        return false;
      }
      tx := DeleteRows(tx, removals);
      var inserts := accepted;
      accepted := map[];
      if inserts != map[] && fault == DuringInsert {
        return false;
      }
      tx := InsertRows(tx, inserts);
      if fault == AtCommit {
        return false;
      }
      table := tx;
      ok := true;
    }

    static method DeleteRows(rows: map<nat, Header>, hashes: set<Hash>) returns (tx: map<nat, Header>)
      ensures tx == Without(rows, hashes)
    {
      tx := rows;
      var removals := hashes;
      while removals != {}
        invariant removals <= hashes && tx == Without(rows, hashes - removals)
        decreases removals
      {
        var removed :| removed in removals;
        tx := map k | k in tx && tx[k].BlockHash() != removed :: tx[k];
        removals := removals - {removed};
      }
    }

    static method InsertRows(rows: map<nat, Header>, inserts: map<nat, Header>) returns (tx: map<nat, Header>)
      ensures tx == rows + inserts
    {
      tx := rows;
      var heights := inserts.Keys;
      while heights != {}
        invariant heights <= inserts.Keys
        invariant tx == rows + (map k | k in inserts && k !in heights :: inserts[k])
        decreases heights
      {
        var height :| height in heights;
        tx := tx[height := inserts[height]];
        heights := heights - {height};
      }
    }

    /** The rows from `lo` up to but not including `hi`, unless two neighbours do not link. */
    method Load(lo: nat, hi: nat) returns (headers: Option<map<nat, Header>>)
      ensures headers.Some? <==> LinkedBetween(table, lo, hi)
      ensures headers.Some? ==> headers.value == map k | lo <= k < hi && k in table :: table[k]
    {
      var found: map<nat, Header> := map[];
      if hi <= lo {
        return Some(found);
      }
      var last: Option<nat> := None;
      for k := lo to hi
        invariant LinkedBetween(table, lo, k)
        invariant found == map m | lo <= m < k && m in table :: table[m]
        invariant LastBelow(table, lo, k, last)
      {
        LinkStep(table, lo, k, last);
        if k in table {
          if last.Some? && table[last.value].BlockHash() != table[k].prev {
            BrokenPrefix(table, lo, k + 1, hi);
            return None;
          }
          found := found[k := table[k]];
          last := Some(k);
        }
      }
      headers := Some(found);
    }

    /** A height that no row is above. */
    method Top() returns (top: nat)
      ensures forall k | k in table :: k <= top
    {
      top := 0;
      var heights := table.Keys;
      while heights != {}
        invariant heights <= table.Keys
        invariant forall k | k in table && k !in heights :: k <= top
        decreases heights
      {
        var height :| height in heights;
        top := if top < height then height else top;
        heights := heights - {height};
      }
    }

    function HeaderAt(height: nat): (header: Option<Header>)
      reads this
    {
      if height in table then Some(table[height]) else None
    }
  }
}
