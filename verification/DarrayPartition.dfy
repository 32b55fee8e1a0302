/** The datatypes that all ranks create for one distributed array divide it up:
    every element belongs to exactly one rank. */
module DarrayPartition {
  import opened Basics
  import opened GridIndex
  import opened Distribution
  import opened Darray
  import Subarray

  // ------------------------------------------------------------ ranks and coordinates

  function RankOf(dims: seq<Dim>, coords: seq<nat>): nat
    requires |coords| == |dims|
  {
    if dims == [] then 0 else coords[0] * Volume(dims[1..]) + RankOf(dims[1..], coords[1..])
  }

  /** The process grid has exactly one rank at each place. */
  lemma {:induction false} RankAtCoords(dims: seq<Dim>, coords: seq<nat>)
    requires ValidDims(dims) && InGrid(dims, coords)
    ensures RankOf(dims, coords) < Volume(dims) && Coords(dims, RankOf(dims, coords)) == coords
  {
    if dims != [] {
      var v, r := Volume(dims[1..]), RankOf(dims[1..], coords[1..]);
      RankAtCoords(dims[1..], coords[1..]);
      MultipleBelow(coords[0] + 1, dims[0].psize, v);
      Distribute(coords[0], 1, v);
      Decompose(coords[0] * v + r, coords[0], r, v);
      assert coords == [coords[0]] + coords[1..];
    }
  }

  lemma {:induction false} CoordsOfRank(dims: seq<Dim>, rank: nat)
    requires ValidDims(dims) && rank < Volume(dims)
    ensures RankOf(dims, Coords(dims, rank)) == rank
  {
    if dims != [] {
      var v := Volume(dims[1..]);
      VolumePositive(dims[1..]);
      CoordsOfRank(dims[1..], rank % v);
      DivMod(rank, v);
      assert Coords(dims, rank)[1..] == Coords(dims[1..], rank % v);
    }
  }

  // ------------------------------------------------------------- the owner of an element

  lemma SizesPositive(dims: seq<Dim>)
    requires ValidDims(dims)
    ensures Positive(Sizes(dims))
  {
  }

  /** The index of element `x` in the dimension that the `k - 1` innermost ones are inside of. */
  lemma Digit(dims: seq<Dim>, orderC: bool, k: nat, x: nat)
    requires ValidDims(dims) && 1 <= k <= |dims| && x < Inner(Sizes(dims), orderC, k)
    ensures var p := Inner(Sizes(dims), orderC, k - 1);
            p > 0 && 0 <= x / p < dims[Axis(orderC, |dims|, k - 1)].gsize && 0 <= x % p < p
  {
    SizesPositive(dims);
    InnerPositive(Sizes(dims), orderC, k - 1);
    QuotientBelow(x, Inner(Sizes(dims), orderC, k - 1), dims[Axis(orderC, |dims|, k - 1)].gsize);
  }

  /** The coordinates that own element `x` of the `k` innermost dimensions. */
  function Holder(dims: seq<Dim>, orderC: bool, k: nat, x: nat): (h: seq<nat>)
    requires ValidDims(dims) && k <= |dims| && x < Inner(Sizes(dims), orderC, k)
    ensures |h| == |dims|
  {
    if k == 0 then seq(|dims|, a => 0)
    else
      var p, a := Inner(Sizes(dims), orderC, k - 1), Axis(orderC, |dims|, k - 1);
      Digit(dims, orderC, k, x);
      Holder(dims, orderC, k - 1, x % p)[a := Owner(dims[a], orderC, x / p)]
  }

  ghost predicate Agree(dims: seq<Dim>, orderC: bool, coords: seq<nat>, holder: seq<nat>, k: nat)
    requires k <= |dims| == |coords| == |holder|
  {
    forall j :: 0 <= j < k ==> var a := Axis(orderC, |dims|, j); Place(dims[a], orderC, coords[a]) == holder[a]
  }

  lemma AgreeNext(dims: seq<Dim>, orderC: bool, coords: seq<nat>, holder: seq<nat>, k: nat, c: nat)
    requires k < |dims| == |coords| == |holder|
    ensures var a := Axis(orderC, |dims|, k);
            Agree(dims, orderC, coords, holder[a := c], k + 1)
            <==> Agree(dims, orderC, coords, holder, k) && Place(dims[a], orderC, coords[a]) == c
  {
    var a := Axis(orderC, |dims|, k);
    if Agree(dims, orderC, coords, holder[a := c], k + 1) {
      forall j | 0 <= j < k
        ensures var b := Axis(orderC, |dims|, j); Place(dims[b], orderC, coords[b]) == holder[b]
      {
        assert Axis(orderC, |dims|, j) != a;
      }
      assert holder[a := c][Axis(orderC, |dims|, k)] == c;
    }
  }

  lemma OwnedIff(d: Dim, orderC: bool, coord: nat, g: nat)
    requires Valid(d) && g < d.gsize
    ensures g in Owned(d, orderC, coord) <==> Place(d, orderC, coord) == Owner(d, orderC, g)
  {
    SelectIsOwned(d, orderC, coord, d.gsize);
  }

  lemma UnfoldInside(sizes: seq<nat>, lists: seq<seq<int>>, orderC: bool, k: nat, x: nat, p: nat)
    requires 1 <= k <= |sizes| == |lists| && Positive(sizes) && p == Inner(sizes, orderC, k - 1) > 0
    ensures Inside(sizes, lists, orderC, k, x)
            <==> x / p in lists[Axis(orderC, |sizes|, k - 1)] && Inside(sizes, lists, orderC, k - 1, x % p)
  {
  }

  /** A process holds an element exactly when it agrees with the element's holder. */
  lemma {:induction false} InsideIffAgree(dims: seq<Dim>, orderC: bool, coords: seq<nat>, k: nat, x: nat)
    requires ValidDims(dims) && k <= |dims| == |coords| && x < Inner(Sizes(dims), orderC, k) && Positive(Sizes(dims))
    ensures Inside(Sizes(dims), OwnedLists(dims, orderC, coords), orderC, k, x)
            <==> Agree(dims, orderC, coords, Holder(dims, orderC, k, x), k)
  {
    if k > 0 {
      var p, a := Inner(Sizes(dims), orderC, k - 1), Axis(orderC, |dims|, k - 1);
      Digit(dims, orderC, k, x);
      InsideIffAgree(dims, orderC, coords, k - 1, x % p);
      OwnedIff(dims[a], orderC, coords[a], x / p);
      UnfoldInside(Sizes(dims), OwnedLists(dims, orderC, coords), orderC, k, x, p);
      AgreeNext(dims, orderC, coords, Holder(dims, orderC, k - 1, x % p), k - 1, Owner(dims[a], orderC, x / p));
    }
  }

  lemma {:induction false} HolderInGrid(dims: seq<Dim>, orderC: bool, k: nat, x: nat)
    requires ValidDims(dims) && k <= |dims| && x < Inner(Sizes(dims), orderC, k)
    ensures InGrid(dims, Holder(dims, orderC, k, x))
  {
    if k > 0 {
      var p, a := Inner(Sizes(dims), orderC, k - 1), Axis(orderC, |dims|, k - 1);
      Digit(dims, orderC, k, x);
      HolderInGrid(dims, orderC, k - 1, x % p);
    }
  }

  lemma OwnedInBounds(dims: seq<Dim>, orderC: bool, coords: seq<nat>)
    requires ValidDims(dims) && |coords| == |dims|
    ensures InBounds(Sizes(dims), OwnedLists(dims, orderC, coords))
  {
    forall a | 0 <= a < |dims|
      ensures Within(Owned(dims[a], orderC, coords[a]), dims[a].gsize) && Increasing(Owned(dims[a], orderC, coords[a]))
    {
      SelectIsOwned(dims[a], orderC, coords[a], dims[a].gsize);
    }
  }

  /** A process's elements are elements of the array, and none comes twice. */
  lemma ElementsInArray(dims: seq<Dim>, orderC: bool, coords: seq<nat>)
    requires ValidDims(dims) && |coords| == |dims|
    ensures Within(Elements(dims, orderC, coords), Inner(Sizes(dims), orderC, |dims|))
    ensures Increasing(Elements(dims, orderC, coords))
  {
    SizesPositive(dims);
    OwnedInBounds(dims, orderC, coords);
    NestIsInside(Sizes(dims), OwnedLists(dims, orderC, coords), orderC, |dims|);
  }

  lemma ElementIffAgree(dims: seq<Dim>, orderC: bool, coords: seq<nat>, x: nat)
    requires ValidDims(dims) && |coords| == |dims| && x < Inner(Sizes(dims), orderC, |dims|)
    ensures x in Elements(dims, orderC, coords) <==> Agree(dims, orderC, coords, Holder(dims, orderC, |dims|, x), |dims|)
  {
    SizesPositive(dims);
    OwnedInBounds(dims, orderC, coords);
    NestIsInside(Sizes(dims), OwnedLists(dims, orderC, coords), orderC, |dims|);
    InsideIffAgree(dims, orderC, coords, |dims|, x);
  }

  // ------------------------------------------------------------------- the partition

  /** Rank `rank` holds element `x`. */
  predicate Holds(dims: seq<Dim>, orderC: bool, rank: nat, x: nat)
    requires ValidDims(dims)
  {
    rank < Volume(dims) && x in Elements(dims, orderC, Coords(dims, rank))
  }

  ghost predicate OneHolder(dims: seq<Dim>, orderC: bool, x: nat)
    requires ValidDims(dims)
  {
    exists rank :: Holds(dims, orderC, rank, x) && forall other :: Holds(dims, orderC, other, x) ==> other == rank
  }

  /** No process shares a pinned dimension with another. */
  predicate Unshared(dims: seq<Dim>, orderC: bool) {
    forall a :: 0 <= a < |dims| && Pinned(dims[a], orderC) ==> dims[a].psize == 1
  }

  lemma AgreeAt(dims: seq<Dim>, orderC: bool, coords: seq<nat>, holder: seq<nat>, a: nat)
    requires a < |dims| == |coords| == |holder| && Agree(dims, orderC, coords, holder, |dims|)
    ensures Place(dims[a], orderC, coords[a]) == holder[a]
  {
    assert a == Axis(orderC, |dims|, Axis(orderC, |dims|, a));
  }

  lemma AgreeIsEqual(dims: seq<Dim>, orderC: bool, coords: seq<nat>, holder: seq<nat>)
    requires Unshared(dims, orderC) && InGrid(dims, coords) && InGrid(dims, holder)
    ensures Agree(dims, orderC, coords, holder, |dims|) <==> coords == holder
  {
    if Agree(dims, orderC, coords, holder, |dims|) {
      forall a | 0 <= a < |dims|
        ensures coords[a] == holder[a]
      {
        AgreeAt(dims, orderC, coords, holder, a);
      }
    } else if coords == holder {
      forall j | 0 <= j < |dims|
        ensures var a := Axis(orderC, |dims|, j); Place(dims[a], orderC, coords[a]) == holder[a]
      {
        assert coords[Axis(orderC, |dims|, j)] < dims[Axis(orderC, |dims|, j)].psize;
      }
    }
  }

  lemma OneRank(dims: seq<Dim>, orderC: bool, x: nat)
    requires ValidDims(dims) && Unshared(dims, orderC) && x < Inner(Sizes(dims), orderC, |dims|)
    ensures OneHolder(dims, orderC, x)
  {
    var holder := Holder(dims, orderC, |dims|, x);
    var rank := RankOf(dims, holder);
    HolderInGrid(dims, orderC, |dims|, x);
    RankAtCoords(dims, holder);
    ElementIffAgree(dims, orderC, holder, x);
    AgreeIsEqual(dims, orderC, holder, holder);
    assert Holds(dims, orderC, rank, x);
    forall other | Holds(dims, orderC, other, x)
      ensures other == rank
    {
      CoordsInGrid(dims, other);
      ElementIffAgree(dims, orderC, Coords(dims, other), x);
      AgreeIsEqual(dims, orderC, Coords(dims, other), holder);
      CoordsOfRank(dims, other);
    }
  }

  function AtOrigin(dims: seq<Dim>): seq<nat> {
    seq(|dims|, a => 0)
  }

  lemma {:induction false} HolderOfFirst(dims: seq<Dim>, orderC: bool, k: nat)
    requires ValidDims(dims) && k <= |dims| && 0 < Inner(Sizes(dims), orderC, k)
    ensures Holder(dims, orderC, k, 0) == AtOrigin(dims)
  {
    if k > 0 {
      var a := Axis(orderC, |dims|, k - 1);
      Digit(dims, orderC, k, 0);
      HolderOfFirst(dims, orderC, k - 1);
      FirstOwner(dims[a], orderC);
      Decompose(0, 0, 0, Inner(Sizes(dims), orderC, k - 1));
    }
  }

  lemma FirstOwner(d: Dim, orderC: bool)
    requires Valid(d)
    ensures Owner(d, orderC, 0) == 0
  {
    Decompose(0, 0, 0, BlockSize(d, orderC));
    Decompose(0, 0, 0, d.psize);
  }

  /** Two ranks that differ only in a pinned dimension both hold the first element. */
  lemma TwoRanks(dims: seq<Dim>, orderC: bool, a: nat)
    requires ValidDims(dims) && a < |dims| && Pinned(dims[a], orderC) && dims[a].psize > 1
    ensures !OneHolder(dims, orderC, 0)
  {
    var c := AtOrigin(dims);
    var c' := c[a := 1];
    SizesPositive(dims);
    InnerPositive(Sizes(dims), orderC, |dims|);
    HolderOfFirst(dims, orderC, |dims|);
    RankAtCoords(dims, c);
    RankAtCoords(dims, c');
    ElementIffAgree(dims, orderC, c, 0);
    ElementIffAgree(dims, orderC, c', 0);
    assert Holds(dims, orderC, RankOf(dims, c), 0) && Holds(dims, orderC, RankOf(dims, c'), 0);
    assert c[a] != c'[a];
  }

  ghost predicate Partitions(dims: seq<Dim>, orderC: bool)
    requires ValidDims(dims)
  {
    forall x: nat :: x < Inner(Sizes(dims), orderC, |dims|) ==> OneHolder(dims, orderC, x)
  }

  /** Every element of the array is held by exactly one rank, exactly when no
      undistributed dimension has several processes in Fortran order. */
  lemma Partition(dims: seq<Dim>, orderC: bool)
    requires ValidDims(dims)
    ensures Partitions(dims, orderC) <==> Unshared(dims, orderC)
  {
    if Unshared(dims, orderC) {
      forall x: nat | x < Inner(Sizes(dims), orderC, |dims|)
        ensures OneHolder(dims, orderC, x)
      {
        OneRank(dims, orderC, x);
      }
    } else {
      var a: nat :| a < |dims| && Pinned(dims[a], orderC) && dims[a].psize != 1;
      assert Valid(dims[a]);
      TwoRanks(dims, orderC, a);
      SizesPositive(dims);
      InnerPositive(Sizes(dims), orderC, |dims|);
    }
  }

  /** One element, not distributed, on two processes in Fortran order: both hold it. */
  lemma SharedElement()
    ensures !Partitions([Dim(1, Kind.None, DFLT_DARG, 2)], false)
  {
    var dims := [Dim(1, Kind.None, DFLT_DARG, 2)];
    assert Pinned(dims[0], false) && !Unshared(dims, false);
    Partition(dims, false);
  }

  // -------------------------------------------------------- the extent and subarrays

  lemma {:induction false} FirstFactor(sizes: seq<nat>, orderC: bool, k: nat)
    requires 1 <= |sizes| && k < |sizes|
    ensures !orderC ==> Inner(sizes, false, k + 1) == sizes[0] * Inner(sizes[1..], false, k)
    ensures orderC ==> Inner(sizes, true, k) == Inner(sizes[1..], true, k)
  {
    if k > 0 {
      FirstFactor(sizes, orderC, k - 1);
      if !orderC {
        Regroup(sizes[0], Inner(sizes[1..], false, k - 1), sizes[k]);
      }
    } else if !orderC {
      assert Inner(sizes, false, 0) == 1;
    }
  }

  /** Both orders span the same number of elements. */
  lemma {:induction false} SameTotal(sizes: seq<nat>)
    ensures Inner(sizes, true, |sizes|) == Inner(sizes, false, |sizes|)
  {
    if |sizes| > 0 {
      SameTotal(sizes[1..]);
      FirstFactor(sizes, true, |sizes| - 1);
      FirstFactor(sizes, false, |sizes| - 1);
    }
  }

  function LocalSizes(dims: seq<Dim>, orderC: bool, coords: seq<nat>): seq<nat>
    requires ValidDims(dims) && |coords| == |dims|
  {
    seq(|dims|, a requires 0 <= a < |dims| =>
      LocalSize(dims[a].gsize, BlockSize(dims[a], orderC), Place(dims[a], orderC, coords[a])))
  }

  function LocalStarts(dims: seq<Dim>, orderC: bool, coords: seq<nat>): seq<int>
    requires ValidDims(dims) && |coords| == |dims|
  {
    seq(|dims|, a requires 0 <= a < |dims| => BlockSize(dims[a], orderC) * Place(dims[a], orderC, coords[a]))
  }

  /** Without cyclic dimensions, a process holds the subarray of its blocks. */
  lemma BlocksAreSubarray(dims: seq<Dim>, orderC: bool, coords: seq<nat>)
    requires ValidDims(dims) && |coords| == |dims| && forall a :: 0 <= a < |dims| ==> !dims[a].kind.Cyclic?
    ensures Elements(dims, orderC, coords)
            == Subarray.Box(Sizes(dims), LocalSizes(dims, orderC, coords), LocalStarts(dims, orderC, coords), orderC)
  {
    var ranges := Subarray.Ranges(LocalStarts(dims, orderC, coords), LocalSizes(dims, orderC, coords));
    forall a | 0 <= a < |dims|
      ensures OwnedLists(dims, orderC, coords)[a] == ranges[a]
    {
      BlockIsOwned(dims[a], orderC, coords[a]);
    }
    assert OwnedLists(dims, orderC, coords) == ranges;
  }
}
