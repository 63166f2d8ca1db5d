/** Block hashes, block headers and the ancestor relation.

    A block hash is a free constructor: either the hash of a given header, or the
    name of a block whose header is not known. Two different headers therefore have
    two different hashes, and no header is its own ancestor: the two idealizations of
    double SHA-256 on which the client relies.
*/
module Hashes {

  type Pos = n: nat | 0 < n witness 1

  /** The compact target of a header, with the work that a block of that target proves.
      Any positive function from targets to work is represented. */
  datatype Bits = Bits(code: nat, work: Pos)

  /** `salt` stands for the version, merkle root, time and nonce of the header. */
  datatype Header = Header(prev: Hash, bits: Bits, salt: nat)
  {
    function BlockHash(): Hash { Of(this) }
  }

  datatype Hash = Anchor(id: nat) | Of(header: Header)

  datatype Option<+T> = None | Some(value: T)

  /** The number of headers that are known below and including `x`. */
  function Depth(x: Hash): nat {
    match x
    case Anchor(_) => 0
    case Of(h) => 1 + Depth(h.prev)
  }

  /** `a` is `x` itself or an ancestor of `x`. */
  predicate Descends(x: Hash, a: Hash) {
    x == a || (x.Of? && Descends(x.header.prev, a))
  }

  /** The ancestor of `x` at a given depth. */
  function AncestorAt(x: Hash, d: nat): (a: Hash)
    requires d <= Depth(x)
    ensures Depth(a) == d && Descends(x, a)
  {
    if Depth(x) == d then x else AncestorAt(x.header.prev, d)
  }

  lemma {:induction false} DescendsDepth(x: Hash, a: Hash)
    requires Descends(x, a)
    ensures Depth(a) <= Depth(x)
    ensures Depth(a) == Depth(x) ==> x == a
  {
    if x != a {
      DescendsDepth(x.header.prev, a);
    }
  }

  lemma {:induction false} DescendsTransitive(x: Hash, y: Hash, z: Hash)
    requires Descends(x, y) && Descends(y, z)
    ensures Descends(x, z)
  {
    if x != y {
      DescendsTransitive(x.header.prev, y, z);
    }
  }

  /** The ancestors of one block form a chain. */
  lemma {:induction false} AncestorsAreOrdered(x: Hash, a: Hash, b: Hash)
    requires Descends(x, a) && Descends(x, b)
    requires Depth(a) <= Depth(b)
    ensures Descends(b, a)
    ensures Depth(a) == Depth(b) ==> a == b
  {
    if x == b {
      DescendsDepth(x, a);
    } else if x == a {
      DescendsDepth(x, b);
    } else {
      AncestorsAreOrdered(x.header.prev, a, b);
    }
  }

  /** The deepest block that both `x` and `y` descend from, when there is one. */
  function Meet(x: Hash, y: Hash): Hash
    decreases Depth(x) + Depth(y)
  {
    if x == y || (x.Anchor? && y.Anchor?) then x
    else if Depth(y) < Depth(x) then Meet(x.header.prev, y)
    else if Depth(x) < Depth(y) then Meet(x, y.header.prev)
    else Meet(x.header.prev, y.header.prev)
  }

  lemma {:induction false} MeetIsDeepestCommonAncestor(x: Hash, y: Hash, a: Hash)
    requires Descends(x, a) && Descends(y, a)
    ensures Descends(x, Meet(x, y)) && Descends(y, Meet(x, y)) && Descends(Meet(x, y), a)
    decreases Depth(x) + Depth(y)
  {
    DescendsDepth(x, a);
    DescendsDepth(y, a);
    if x == y || (x.Anchor? && y.Anchor?) {
    } else if Depth(y) < Depth(x) {
      MeetIsDeepestCommonAncestor(x.header.prev, y, a);
    } else if Depth(x) < Depth(y) {
      MeetIsDeepestCommonAncestor(x, y.header.prev, a);
    } else {
      MeetIsDeepestCommonAncestor(x.header.prev, y.header.prev, a);
    }
  }
}
