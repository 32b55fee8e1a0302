/** A type map repeated at a list of element positions. */
module Scatter {
  import opened Basics
  import opened Typemap
  import opened GridIndex

  /** The type map `m` at each element in `xs`, elements being `e` bytes apart. */
  function At(m: seq<Entry>, xs: seq<int>, e: int): seq<Entry> {
    if xs == [] then [] else Shift(m, xs[0] * e) + At(m, xs[1..], e)
  }

  lemma {:induction false} AtAppend(m: seq<Entry>, xs: seq<int>, ys: seq<int>, e: int)
    ensures At(m, xs + ys, e) == At(m, xs, e) + At(m, ys, e)
  {
    if xs == [] {
      assert xs + ys == ys;
    } else {
      AtAppend(m, xs[1..], ys, e);
      assert (xs + ys)[1..] == xs[1..] + ys;
      Associative(Shift(m, xs[0] * e), At(m, xs[1..], e), At(m, ys, e));
    }
  }

  lemma {:induction false} AtShift(m: seq<Entry>, xs: seq<int>, e: int, d: int)
    ensures Shift(At(m, xs, e), d * e) == At(m, Plus(xs, d), e)
  {
    if xs != [] {
      AtShift(m, xs[1..], e, d);
      ShiftAppend(Shift(m, xs[0] * e), At(m, xs[1..], e), d * e);
      ShiftTwice(m, xs[0] * e, d * e);
      Distribute(xs[0], d, e);
      assert Plus(xs, d)[1..] == Plus(xs[1..], d);
    }
  }

  lemma AtOrigin(m: seq<Entry>, e: int)
    ensures At(m, [0], e) == m
  {
    ShiftZero(m);
    assert At(m, [0][1..], e) == [];
  }

  /** Copies of a scattered map, rows of `p` elements apart, fill a range of rows of the grid. */
  lemma {:induction false} CopiesAt(m: seq<Entry>, xs: seq<int>, e: int, n: nat, a: int, p: int, d: int, s: int)
    requires d == a * s && s == p * e
    ensures Copies(At(m, xs, e), n, d, s) == At(m, Grid(xs, Range(a, n), p), e)
    decreases n
  {
    if n > 0 {
      Distribute(a, 1, s);
      CopiesAt(m, xs, e, n - 1, a + 1, p, d + s, s);
      Regroup(a, p, e);
      AtShift(m, xs, e, a * p);
      assert Range(a, n)[1..] == Range(a + 1, n - 1);
      AtAppend(m, Plus(xs, a * p), Grid(xs, Range(a + 1, n - 1), p), e);
    }
  }

  /** `n` copies a row of `p` elements apart fill the first `n` rows. */
  lemma BlockStep(m: seq<Entry>, xs: seq<int>, e: int, p: int, n: nat)
    ensures Copies(At(m, xs, e), n, 0, e * p) == At(m, Grid(xs, Range(0, n), p), e)
  {
    CopiesAt(m, xs, e, n, 0, p, 0, p * e);
  }
}
