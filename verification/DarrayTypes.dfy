/** What the datatypes that all ranks create for one distributed array are together, and
    what a datatype of blocks is as a subarray. */
module DarrayTypes {
  import opened Basics
  import opened Typemap
  import opened GridIndex
  import opened Distribution
  import opened Scatter
  import opened Darray
  import opened DarrayPartition
  import Subarray

  /** The elements of the first `n` ranks, rank by rank. */
  function AllElements(dims: seq<Dim>, orderC: bool, n: nat): seq<int>
    requires ValidDims(dims)
  {
    if n == 0 then [] else AllElements(dims, orderC, n - 1) + Elements(dims, orderC, Coords(dims, n - 1))
  }

  // ----------------------------------------------------------------- counting holders

  function Trues(flags: seq<bool>): nat {
    if flags == [] then 0 else Trues(flags[..|flags| - 1]) + if flags[|flags| - 1] then 1 else 0
  }

  lemma {:induction false} NoneTrue(flags: seq<bool>)
    ensures Trues(flags) == 0 <==> forall i :: 0 <= i < |flags| ==> !flags[i]
  {
    if flags != [] {
      NoneTrue(flags[..|flags| - 1]);
    }
  }

  ghost predicate OnlyTrue(flags: seq<bool>, i: nat) {
    i < |flags| && flags[i] && forall j :: 0 <= j < |flags| && flags[j] ==> j == i
  }

  lemma {:induction false} OnlyCounts(flags: seq<bool>, i: nat)
    requires OnlyTrue(flags, i)
    ensures Trues(flags) == 1
  {
    var n := |flags| - 1;
    if i == n {
      NoneTrue(flags[..n]);
    } else {
      OnlyCounts(flags[..n], i);
    }
  }

  lemma {:induction false} FindOnly(flags: seq<bool>) returns (i: nat)
    requires Trues(flags) == 1
    ensures OnlyTrue(flags, i)
  {
    var n := |flags| - 1;
    if flags[n] {
      NoneTrue(flags[..n]);
      assert forall j :: 0 <= j < n ==> flags[j] == flags[..n][j];
      i := n;
    } else {
      i := FindOnly(flags[..n]);
      assert forall j :: 0 <= j < n ==> flags[j] == flags[..n][j];
    }
  }

  /** Which of the first `n` ranks have the element. */
  function Having(dims: seq<Dim>, orderC: bool, n: nat, x: int): (r: seq<bool>)
    requires ValidDims(dims)
    ensures |r| == n && forall i :: 0 <= i < n ==> r[i] == (x in Elements(dims, orderC, Coords(dims, i)))
  {
    if n == 0 then [] else Having(dims, orderC, n - 1, x) + [x in Elements(dims, orderC, Coords(dims, n - 1))]
  }

  lemma {:induction false} IncreasingOnce(xs: seq<int>, x: int)
    requires Increasing(xs)
    ensures multiset(xs)[x] == if x in xs then 1 else 0
  {
    if xs != [] {
      IncreasingOnce(xs[1..], x);
      assert xs == [xs[0]] + xs[1..];
      if x == xs[0] {
        assert x !in xs[1..];
      }
    }
  }

  lemma AddsOne(before: seq<int>, more: seq<int>, x: int, flags: seq<bool>, has: bool)
    requires Increasing(more) && has == (x in more) && multiset(before)[x] == Trues(flags)
    ensures multiset(before + more)[x] == Trues(flags + [has])
  {
    IncreasingOnce(more, x);
    assert (flags + [has])[..|flags|] == flags;
  }

  /** An element is there as often as there are ranks that have it. */
  lemma {:induction false} CountsHolders(dims: seq<Dim>, orderC: bool, n: nat, x: int)
    requires ValidDims(dims)
    ensures multiset(AllElements(dims, orderC, n))[x] == Trues(Having(dims, orderC, n, x))
  {
    if n > 0 {
      var more := Elements(dims, orderC, Coords(dims, n - 1));
      CountsHolders(dims, orderC, n - 1, x);
      ElementsInArray(dims, orderC, Coords(dims, n - 1));
      AddsOne(AllElements(dims, orderC, n - 1), more, x, Having(dims, orderC, n - 1, x), x in more);
    }
  }

  /** An element is there once exactly when one rank holds it. */
  lemma OnceIffOneHolder(dims: seq<Dim>, orderC: bool, x: nat)
    requires ValidDims(dims)
    ensures multiset(AllElements(dims, orderC, Volume(dims)))[x] == 1 <==> OneHolder(dims, orderC, x)
  {
    var flags := Having(dims, orderC, Volume(dims), x);
    CountsHolders(dims, orderC, Volume(dims), x);
    assert forall r: nat :: Holds(dims, orderC, r, x) <==> r < |flags| && flags[r];
    if Trues(flags) == 1 {
      var i := FindOnly(flags);
      assert Holds(dims, orderC, i, x);
    }
    if OneHolder(dims, orderC, x) {
      var r: nat :| Holds(dims, orderC, r, x) && forall other :: Holds(dims, orderC, other, x) ==> other == r;
      OnlyCounts(flags, r);
    }
  }

  // --------------------------------------------------------------- the whole array

  lemma {:induction false} RangeOnce(a: int, n: nat, x: int)
    ensures multiset(Range(a, n))[x] == if a <= x < a + n then 1 else 0
    decreases n
  {
    if n > 0 {
      RangeOnce(a + 1, n - 1, x);
      assert Range(a, n) == [a] + Range(a + 1, n - 1);
    }
  }

  lemma NobodyHasMore(dims: seq<Dim>, orderC: bool, n: nat, x: int)
    requires ValidDims(dims) && !(0 <= x < Inner(Sizes(dims), orderC, |dims|))
    ensures multiset(AllElements(dims, orderC, n))[x] == 0
  {
    CountsHolders(dims, orderC, n, x);
    NoneTrue(Having(dims, orderC, n, x));
    forall i | 0 <= i < n
      ensures x !in Elements(dims, orderC, Coords(dims, i))
    {
      ElementsInArray(dims, orderC, Coords(dims, i));
    }
  }

  lemma RightlyOften(dims: seq<Dim>, orderC: bool, n: nat, x: int)
    requires ValidDims(dims) && n == Inner(Sizes(dims), orderC, |dims|)
    ensures multiset(AllElements(dims, orderC, Volume(dims)))[x] == multiset(Range(0, n))[x]
            <==> (0 <= x < n ==> OneHolder(dims, orderC, x))
  {
    RangeOnce(0, n, x);
    if 0 <= x < n {
      OnceIffOneHolder(dims, orderC, x);
    } else {
      NobodyHasMore(dims, orderC, Volume(dims), x);
    }
  }

  /** The elements of all ranks together are those of the array, each once, exactly when
      no undistributed dimension has several processes in Fortran order. */
  lemma TogetherTheArray(dims: seq<Dim>, orderC: bool, n: nat)
    requires ValidDims(dims) && n == Inner(Sizes(dims), orderC, |dims|)
    ensures multiset(AllElements(dims, orderC, Volume(dims))) == multiset(Range(0, n)) <==> Unshared(dims, orderC)
  {
    Partition(dims, orderC);
    if Unshared(dims, orderC) {
      forall x: int
        ensures multiset(AllElements(dims, orderC, Volume(dims)))[x] == multiset(Range(0, n))[x]
      {
        RightlyOften(dims, orderC, n, x);
      }
    } else {
      var x: nat :| x < n && !OneHolder(dims, orderC, x);
      RightlyOften(dims, orderC, n, x);
    }
  }

  // ------------------------------------------------------------------------ type maps

  lemma {:induction false} SameElements(m: seq<Entry>, xs: seq<int>, ys: seq<int>, e: int)
    requires multiset(xs) == multiset(ys)
    ensures multiset(At(m, xs, e)) == multiset(At(m, ys, e))
    decreases |xs|
  {
    if xs == [] {
      assert |multiset(ys)| == 0;
    } else {
      var x := xs[0];
      assert x in multiset(ys);
      var j :| 0 <= j < |ys| && ys[j] == x;
      var rest := ys[..j] + ys[j + 1..];
      assert ys == ys[..j] + ([x] + ys[j + 1..]);
      assert xs == [x] + xs[1..];
      assert multiset(rest) == multiset(ys) - multiset{x} == multiset(xs[1..]);
      SameElements(m, xs[1..], rest, e);
      AtAppend(m, ys[..j], ys[j + 1..], e);
      AtAppend(m, ys[..j], [x] + ys[j + 1..], e);
      assert ([x] + ys[j + 1..])[1..] == ys[j + 1..];
    }
  }

  function Joined(types: seq<Datatype>): seq<Entry> {
    if types == [] then [] else Joined(types[..|types| - 1]) + types[|types| - 1].entries
  }

  lemma {:induction false} ContiguousAt(m: seq<Entry>, a: int, n: nat, e: int)
    ensures Copies(m, n, a * e, e) == At(m, Range(a, n), e)
    decreases n
  {
    if n > 0 {
      ContiguousAt(m, a + 1, n - 1, e);
      Distribute(a, 1, e);
      assert Range(a, n)[1..] == Range(a + 1, n - 1);
    }
  }

  /** The entries of the types of all ranks are together those of the whole array,
      unless ranks share an undistributed dimension. */
  method CreateAll(dims: seq<Dim>, orderC: bool, elem: Datatype) returns (types: seq<Datatype>)
    requires ValidDims(dims) && |dims| > 0
    ensures |types| == Volume(dims)
    ensures Unshared(dims, orderC) ==>
              multiset(Joined(types)) == multiset(Copies(elem.entries, Inner(Sizes(dims), orderC, |dims|), 0, Extent(elem)))
  {
    var size, rank := Volume(dims), 0;
    types := [];
    while rank < size
      invariant 0 <= rank <= size && |types| == rank
      invariant Joined(types) == At(elem.entries, AllElements(dims, orderC, rank), Extent(elem))
    {
      var t := Create(size, rank, dims, orderC, elem);
      assert (types + [t])[..|types|] == types;
      AtAppend(elem.entries, AllElements(dims, orderC, rank), Elements(dims, orderC, Coords(dims, rank)), Extent(elem));
      types := types + [t];
      rank := rank + 1;
    }
    TogetherTheArray(dims, orderC, Inner(Sizes(dims), orderC, |dims|));
    if Unshared(dims, orderC) {
      SameElements(elem.entries, AllElements(dims, orderC, size), Range(0, Inner(Sizes(dims), orderC, |dims|)), Extent(elem));
      ContiguousAt(elem.entries, 0, Inner(Sizes(dims), orderC, |dims|), Extent(elem));
    }
  }

  lemma LocalSizesFit(dims: seq<Dim>, orderC: bool, coords: seq<nat>)
    requires ValidDims(dims) && |coords| == |dims|
    ensures Subarray.Fitting(Sizes(dims), LocalSizes(dims, orderC, coords))
  {
  }

  /** Without cyclic dimensions, the two constructors make the same type exactly when the
      subarray's is not derailed. */
  method BlocksBothWays(rank: nat, dims: seq<Dim>, orderC: bool, elem: Datatype) returns (d: Datatype, s: Datatype)
    requires ValidDims(dims) && 0 < |dims| && rank < Volume(dims) && Bounded(elem)
    requires forall a :: 0 <= a < |dims| ==> !dims[a].kind.Cyclic?
    ensures d.lb == s.lb && d.ub == s.ub
    ensures d.entries == s.entries
            <==> !Subarray.Derails(Sizes(dims), LocalSizes(dims, orderC, Coords(dims, rank)), orderC, elem, |dims|)
  {
    var coords := Coords(dims, rank);
    LocalSizesFit(dims, orderC, coords);
    BlocksAreSubarray(dims, orderC, coords);
    SameTotal(Sizes(dims));
    d := Create(Volume(dims), rank, dims, orderC, elem);
    s := Subarray.Create(Sizes(dims), LocalSizes(dims, orderC, coords), LocalStarts(dims, orderC, coords), orderC, elem);
  }
}
