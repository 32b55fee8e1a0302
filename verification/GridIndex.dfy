/** Lists of element numbers in a multi-dimensional array. */
module GridIndex {
  import opened Basics

  function Plus(xs: seq<int>, d: int): (r: seq<int>)
    ensures |r| == |xs|
  {
    seq(|xs|, i requires 0 <= i < |xs| => xs[i] + d)
  }

  /** The numbers from `a` on, `n` of them. */
  function Range(a: int, n: nat): (r: seq<int>)
    ensures |r| == n && forall i :: 0 <= i < n ==> r[i] == a + i
    decreases n
  {
    if n == 0 then [] else [a] + Range(a + 1, n - 1)
  }

  /** For each `y` in turn, all of `xs` in row `y` of rows of length `p`. */
  function Grid(xs: seq<int>, ys: seq<int>, p: int): seq<int> {
    if ys == [] then [] else Plus(xs, ys[0] * p) + Grid(xs, ys[1..], p)
  }

  ghost predicate Increasing(xs: seq<int>) {
    forall i, j :: 0 <= i < j < |xs| ==> xs[i] < xs[j]
  }

  ghost predicate Within(xs: seq<int>, n: int) {
    forall i :: 0 <= i < |xs| ==> 0 <= xs[i] < n
  }

  lemma {:induction false} GridAppend(xs: seq<int>, ys: seq<int>, zs: seq<int>, p: int)
    ensures Grid(xs, ys + zs, p) == Grid(xs, ys, p) + Grid(xs, zs, p)
  {
    if ys == [] {
      assert ys + zs == zs;
    } else {
      GridAppend(xs, ys[1..], zs, p);
      assert (ys + zs)[1..] == ys[1..] + zs;
      Associative(Plus(xs, ys[0] * p), Grid(xs, ys[1..], p), Grid(xs, zs, p));
    }
  }

  lemma PlusPlus(xs: seq<int>, a: int, b: int)
    ensures Plus(Plus(xs, a), b) == Plus(xs, a + b)
  {
  }

  lemma PlusAppend(xs: seq<int>, ys: seq<int>, a: int)
    ensures Plus(xs + ys, a) == Plus(xs, a) + Plus(ys, a)
  {
  }

  /** Moving the columns by `a` and the rows by `b` moves every element by `a + b * p`. */
  lemma {:induction false} GridPlus(xs: seq<int>, ys: seq<int>, p: int, a: int, b: int)
    ensures Grid(Plus(xs, a), Plus(ys, b), p) == Plus(Grid(xs, ys, p), a + b * p)
  {
    if ys != [] {
      GridPlus(xs, ys[1..], p, a, b);
      assert Plus(ys, b)[1..] == Plus(ys[1..], b);
      Distribute(ys[0], b, p);
      PlusPlus(xs, a, (ys[0] + b) * p);
      PlusPlus(xs, ys[0] * p, a + b * p);
      assert a + (ys[0] + b) * p == ys[0] * p + (a + b * p);
      PlusAppend(Plus(xs, ys[0] * p), Grid(xs, ys[1..], p), a + b * p);
    }
  }

  /** An element is in the grid exactly when its column is in `xs` and its row in `ys`. */
  lemma {:induction false} GridMember(xs: seq<int>, ys: seq<int>, p: int, x: int)
    requires p > 0 && Within(xs, p)
    ensures x in Grid(xs, ys, p) <==> x / p in ys && x % p in xs
  {
    if ys != [] {
      GridMember(xs, ys[1..], p, x);
      var y, row := ys[0], Plus(xs, ys[0] * p);
      if x in row {
        var i :| 0 <= i < |xs| && row[i] == x;
        Decompose(x, y, xs[i], p);
        assert x % p == xs[i] && x / p == ys[0];
      }
      if x / p == y && x % p in xs {
        var i :| 0 <= i < |xs| && xs[i] == x % p;
        assert row[i] == x % p + y * p == x;
      }
      assert x / p in ys <==> x / p == y || x / p in ys[1..];
    }
  }

  /** Everything in a row comes before everything in a later row. */
  lemma RowBefore(c: int, y: int, x: int, p: int)
    requires 0 <= c < p && y < x / p
    ensures c + y * p < x
  {
    MultipleBelow(y + 1, x / p, p);
    Distribute(y, 1, p);
  }

  lemma InRows(x: int, p: int, n: int)
    requires p > 0 && 0 <= x / p < n
    ensures 0 <= x < n * p
  {
    MultipleBelow(x / p + 1, n, p);
    Distribute(x / p, 1, p);
    ProductNonNegative(x / p, p);
  }

  lemma AppendIncreasing(xs: seq<int>, ys: seq<int>)
    requires Increasing(xs) && Increasing(ys)
    requires forall i, j :: 0 <= i < |xs| && 0 <= j < |ys| ==> xs[i] < ys[j]
    ensures Increasing(xs + ys)
  {
  }

  lemma RowRest(xs: seq<int>, ys: seq<int>, p: int, i: nat, x: int)
    requires p > 0 && Within(xs, p) && |ys| > 0 && Increasing(ys)
    requires i < |xs| && x in Grid(xs, ys[1..], p)
    ensures xs[i] + ys[0] * p < x
  {
    GridMember(xs, ys[1..], p, x);
    RowBefore(xs[i], ys[0], x, p);
  }

  /** Rows in order, columns in order: elements in order. */
  lemma {:induction false} GridIncreasing(xs: seq<int>, ys: seq<int>, p: int)
    requires p > 0 && Within(xs, p) && Increasing(xs) && Increasing(ys)
    ensures Increasing(Grid(xs, ys, p))
  {
    if ys != [] {
      var row, rest := Plus(xs, ys[0] * p), Grid(xs, ys[1..], p);
      GridIncreasing(xs, ys[1..], p);
      forall i, j | 0 <= i < |row| && 0 <= j < |rest|
        ensures row[i] < rest[j]
      {
        RowRest(xs, ys, p, i, rest[j]);
      }
      AppendIncreasing(row, rest);
    }
  }

  lemma {:induction false} GridWithin(xs: seq<int>, ys: seq<int>, p: int, n: int)
    requires p > 0 && Within(xs, p) && Within(ys, n)
    ensures Within(Grid(xs, ys, p), n * p)
  {
    var grid := Grid(xs, ys, p);
    forall i | 0 <= i < |grid|
      ensures 0 <= grid[i] < n * p
    {
      GridMember(xs, ys, p, grid[i]);
      InRows(grid[i], p, n);
    }
  }

  lemma {:induction false} GridOfOne(xs: seq<int>, y: int, p: int)
    ensures Grid(xs, [y], p) == Plus(xs, y * p)
  {
    assert Grid(xs, [], p) == [];
  }

  /** A grid of rows of grids is one grid. */
  lemma {:induction false} GridOfGrids(xs: seq<int>, ys: seq<int>, zs: seq<int>, p: int, q: int)
    ensures Grid(Grid(xs, ys, p), zs, q * p) == Grid(xs, Grid(ys, zs, q), p)
  {
    if zs != [] {
      GridOfGrids(xs, ys, zs[1..], p, q);
      GridPlus(xs, ys, p, 0, zs[0] * q);
      PlusZero(xs);
      Regroup(zs[0], q, p);
      GridAppend(xs, Plus(ys, zs[0] * q), Grid(ys, zs[1..], q), p);
    }
  }

  lemma PlusZero(xs: seq<int>)
    ensures Plus(xs, 0) == xs
  {
  }

  lemma PlusIncreasing(xs: seq<int>, d: int)
    requires Increasing(xs)
    ensures Increasing(Plus(xs, d))
  {
  }

  lemma PlusMember(xs: seq<int>, d: int, x: int)
    ensures x in Plus(xs, d) <==> x - d in xs
  {
    if x - d in xs {
      var i :| 0 <= i < |xs| && xs[i] == x - d;
      assert Plus(xs, d)[i] == x;
    }
  }

  lemma RangeMember(a: int, n: nat, x: int)
    ensures x in Range(a, n) <==> a <= x < a + n
  {
    if a <= x < a + n {
      assert Range(a, n)[x - a] == x;
    }
  }

  lemma PlusRange(a: int, n: nat, d: int)
    ensures Plus(Range(a, n), d) == Range(a + d, n)
  {
  }

  lemma SomeMember(xs: seq<int>)
    requires xs != []
    ensures exists x :: x in xs
  {
    var x := xs[0];
    assert x in xs;
  }

  lemma NoMembers(xs: seq<int>, ys: seq<int>)
    requires xs == [] && forall x :: x in xs <==> x in ys
    ensures ys == []
  {
    if ys != [] {
      SomeMember(ys);
      assert false;
    }
  }

  /** Increasing lists with the same members are the same list. */
  lemma {:induction false} SameList(xs: seq<int>, ys: seq<int>)
    requires Increasing(xs) && Increasing(ys) && forall x :: x in xs <==> x in ys
    ensures xs == ys
  {
    if xs == [] {
      NoMembers(xs, ys);
    } else if ys == [] {
      NoMembers(ys, xs);
    } else {
      assert xs[0] in ys && ys[0] in xs;
      assert xs[0] == ys[0];
      forall x
        ensures x in xs[1..] <==> x in ys[1..]
      {
        TailMember(xs, x);
        TailMember(ys, x);
      }
      SameList(xs[1..], ys[1..]);
      assert xs == [xs[0]] + xs[1..] && ys == [ys[0]] + ys[1..];
    }
  }

  lemma TailMember(xs: seq<int>, x: int)
    requires Increasing(xs) && xs != []
    ensures x in xs[1..] <==> x in xs && x != xs[0]
  {
    if x in xs && x != xs[0] {
      var i :| 0 <= i < |xs| && xs[i] == x;
      assert xs[1..][i - 1] == x;
    }
  }

  // ------------------------------------------------------------------ many dimensions

  /** The dimension visited at step `k`, innermost first: the last dimension in C
      order, the first in Fortran order. */
  function Axis(orderC: bool, n: nat, k: nat): (a: nat)
    requires k < n
    ensures a < n && (orderC ==> a == n - 1 - k) && (!orderC ==> a == k)
  {
    if orderC then n - 1 - k else k
  }

  /** How many elements the `k` innermost dimensions span. */
  function Inner(sizes: seq<nat>, orderC: bool, k: nat): nat
    requires k <= |sizes|
  {
    if k == 0 then 1 else Inner(sizes, orderC, k - 1) * sizes[Axis(orderC, |sizes|, k - 1)]
  }

  ghost predicate Positive(sizes: seq<nat>) {
    forall a :: 0 <= a < |sizes| ==> sizes[a] > 0
  }

  lemma {:induction false} InnerPositive(sizes: seq<nat>, orderC: bool, k: nat)
    requires k <= |sizes| && Positive(sizes)
    ensures Inner(sizes, orderC, k) > 0
  {
    if k > 0 {
      InnerPositive(sizes, orderC, k - 1);
      assert sizes[Axis(orderC, |sizes|, k - 1)] > 0;
    }
  }

  /** The elements whose index in each of the `k` innermost dimensions is in that dimension's list. */
  function Nest(sizes: seq<nat>, lists: seq<seq<int>>, orderC: bool, k: nat): seq<int>
    requires k <= |sizes| == |lists|
  {
    if k == 0 then [0]
    else Grid(Nest(sizes, lists, orderC, k - 1), lists[Axis(orderC, |sizes|, k - 1)], Inner(sizes, orderC, k - 1))
  }

  lemma {:induction false} NestSame(sizes: seq<nat>, lists: seq<seq<int>>, lists': seq<seq<int>>, orderC: bool, k: nat)
    requires k <= |sizes| == |lists| == |lists'|
    requires forall j :: 0 <= j < k ==> lists[Axis(orderC, |sizes|, j)] == lists'[Axis(orderC, |sizes|, j)]
    ensures Nest(sizes, lists, orderC, k) == Nest(sizes, lists', orderC, k)
  {
    if k > 0 {
      NestSame(sizes, lists, lists', orderC, k - 1);
    }
  }

  lemma NestNext(sizes: seq<nat>, lists: seq<seq<int>>, orderC: bool, k: nat, list: seq<int>)
    requires k < |sizes| == |lists|
    ensures Nest(sizes, lists[Axis(orderC, |sizes|, k) := list], orderC, k + 1)
            == Grid(Nest(sizes, lists, orderC, k), list, Inner(sizes, orderC, k))
  {
    NestSame(sizes, lists, lists[Axis(orderC, |sizes|, k) := list], orderC, k);
  }

  /** `x` has an index from each dimension's list. */
  predicate Inside(sizes: seq<nat>, lists: seq<seq<int>>, orderC: bool, k: nat, x: int)
    requires k <= |sizes| == |lists| && Positive(sizes)
  {
    if k == 0 then x == 0
    else
      var p := Inner(sizes, orderC, k - 1);
      InnerPositive(sizes, orderC, k - 1);
      x / p in lists[Axis(orderC, |sizes|, k - 1)] && Inside(sizes, lists, orderC, k - 1, x % p)
  }

  ghost predicate InBounds(sizes: seq<nat>, lists: seq<seq<int>>)
    requires |sizes| == |lists|
  {
    forall a :: 0 <= a < |sizes| ==> Within(lists[a], sizes[a]) && Increasing(lists[a])
  }

  /** The nest is the increasing list of exactly the elements inside. */
  lemma {:induction false} NestIsInside(sizes: seq<nat>, lists: seq<seq<int>>, orderC: bool, k: nat)
    requires k <= |sizes| == |lists| && Positive(sizes) && InBounds(sizes, lists)
    ensures Within(Nest(sizes, lists, orderC, k), Inner(sizes, orderC, k)) && Increasing(Nest(sizes, lists, orderC, k))
    ensures forall x :: x in Nest(sizes, lists, orderC, k) <==> Inside(sizes, lists, orderC, k, x)
  {
    if k > 0 {
      var p, a := Inner(sizes, orderC, k - 1), Axis(orderC, |sizes|, k - 1);
      var xs := Nest(sizes, lists, orderC, k - 1);
      InnerPositive(sizes, orderC, k - 1);
      NestIsInside(sizes, lists, orderC, k - 1);
      GridIncreasing(xs, lists[a], p);
      GridWithin(xs, lists[a], p, sizes[a]);
      forall x
        ensures x in Nest(sizes, lists, orderC, k) <==> Inside(sizes, lists, orderC, k, x)
      {
        GridMember(xs, lists[a], p, x);
      }
    }
  }

  /** Where the element with index `starts[a]` in each dimension `a` is. */
  function Origin(sizes: seq<nat>, starts: seq<int>, orderC: bool, k: nat): int
    requires k <= |sizes| == |starts|
  {
    if k == 0 then 0
    else Origin(sizes, starts, orderC, k - 1) + starts[Axis(orderC, |sizes|, k - 1)] * Inner(sizes, orderC, k - 1)
  }

  /** Moving every list by its start moves the nest by the origin. */
  lemma {:induction false} NestPlus(sizes: seq<nat>, lists: seq<seq<int>>, starts: seq<int>, moved: seq<seq<int>>, orderC: bool, k: nat)
    requires k <= |sizes| == |lists| == |starts| == |moved|
    requires forall a :: 0 <= a < |sizes| ==> moved[a] == Plus(lists[a], starts[a])
    ensures Nest(sizes, moved, orderC, k) == Plus(Nest(sizes, lists, orderC, k), Origin(sizes, starts, orderC, k))
  {
    if k > 0 {
      var a := Axis(orderC, |sizes|, k - 1);
      NestPlus(sizes, lists, starts, moved, orderC, k - 1);
      GridPlus(Nest(sizes, lists, orderC, k - 1), lists[a], Inner(sizes, orderC, k - 1), Origin(sizes, starts, orderC, k - 1), starts[a]);
    }
  }
}
