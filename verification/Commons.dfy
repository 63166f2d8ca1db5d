/** List reversal and a little arithmetic that several parts use. */
module Commons {

  function Reversed<T>(s: seq<T>): (r: seq<T>)
    ensures |r| == |s| && forall i | 0 <= i < |s| :: r[i] == s[|s| - 1 - i]
  {
    if s == [] then [] else Reversed(s[1..]) + [s[0]]
  }

  lemma {:induction false} ReversedMember<T>(s: seq<T>, x: T)
    ensures x in Reversed(s) <==> x in s
  {
    if s != [] {
      ReversedMember(s[1..], x);
    }
  }

  lemma {:induction false} ReversedSplits<T>(s: seq<T>, x: T)
    ensures Reversed(s + [x]) == [x] + Reversed(s)
  {
    if s == [] {
      assert ([] + [x])[1..] == [];
    } else {
      assert (s + [x])[1..] == s[1..] + [x];
      ReversedSplits(s[1..], x);
    }
  }

  /** Saturating subtraction. */
  function SaturatingSub(a: nat, b: nat): nat {
    if a < b then 0 else a - b
  }

  /** A quotient is known by where the dividend lies. */
  lemma Quotient(x: int, n: int, q: int)
    requires 0 < n && n * q <= x < n * q + n
    ensures x / n == q && x % n == x - n * q
  {
    Below(n, q, x / n);
    Below(n, x / n, q);
    assert x == n * (x / n) + x % n;
  }

  lemma {:induction false} Below(n: int, a: int, b: int)
    requires 0 < n
    ensures a < b ==> n * a + n <= n * b
    decreases b - a
  {
    if a + 1 < b {
      Below(n, a, b - 1);
      assert n * b == n * (b - 1) + n;
    } else if a + 1 == b {
      assert n * b == n * a + n;
    }
  }
}
