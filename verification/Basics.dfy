/** Arithmetic and sequence facts, and an optional value. */
module Basics {

  datatype Option<T> = None | Some(value: T)

  function Smaller(a: int, b: int): int {
    if a < b then a else b
  }

  function Larger(a: int, b: int): int {
    if a < b then b else a
  }

  lemma Distribute(a: int, b: int, p: int)
    ensures (a + b) * p == a * p + b * p
  {
  }

  /** A quotient and remainder in range determine each other. */
  lemma Decompose(x: int, q: int, r: int, p: int)
    requires 0 <= r < p && x == q * p + r
    ensures x / p == q && x % p == r
  {
    if x / p > q {
      MultipleBelow(q + 1, x / p, p);
    } else if x / p < q {
      MultipleBelow(x / p + 1, q, p);
    }
  }

  lemma MultipleBelow(a: int, b: int, p: int)
    requires a <= b && p >= 0
    ensures a * p <= b * p
  {
    Distribute(a, b - a, p);
    assert 0 <= (b - a) * p by {
      ProductNonNegative(b - a, p);
    }
  }

  lemma ProductNonNegative(a: int, b: int)
    requires a >= 0 && b >= 0
    ensures a * b >= 0
  {
  }

  lemma Regroup(a: int, b: int, c: int)
    ensures a * (b * c) == (a * b) * c
  {
  }

  lemma DivMod(x: int, p: nat)
    requires p >= 1
    ensures x == (x / p) * p + x % p && 0 <= x % p < p
  {
  }

  lemma Associative<T>(a: seq<T>, b: seq<T>, c: seq<T>)
    ensures (a + b) + c == a + (b + c)
  {
  }
}
