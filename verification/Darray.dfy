/** ompi_datatype_create_darray: the piece of a distributed array that one rank holds. */
module Darray {
  import opened Basics
  import opened Typemap
  import opened GridIndex
  import opened Distribution
  import opened Scatter
  import StructMerging
  import TypeConstructors
  import VectorBounds

  // ---------------------------------------------------------------- the array's shape

  predicate ValidDims(dims: seq<Dim>) {
    forall a :: 0 <= a < |dims| ==> Valid(dims[a])
  }

  function Sizes(dims: seq<Dim>): seq<nat> {
    seq(|dims|, a requires 0 <= a < |dims| => dims[a].gsize)
  }

  /** How many processes the grid holds. */
  function Volume(dims: seq<Dim>): nat {
    if dims == [] then 1 else dims[0].psize * Volume(dims[1..])
  }

  lemma {:induction false} VolumePositive(dims: seq<Dim>)
    requires ValidDims(dims)
    ensures Volume(dims) >= 1
  {
    if dims != [] {
      assert Valid(dims[0]);
      VolumePositive(dims[1..]);
      MultipleBelow(1, dims[0].psize, Volume(dims[1..]));
    }
  }

  /** The place of a rank in the row-major process grid. */
  function Coords(dims: seq<Dim>, rank: nat): (c: seq<nat>)
    requires ValidDims(dims)
    ensures |c| == |dims|
  {
    if dims == [] then []
    else
      var v := Volume(dims[1..]);
      VolumePositive(dims[1..]);
      [rank / v] + Coords(dims[1..], rank % v)
  }

  // --------------------------------------------------------- block() and cyclic()

  function Start(orderC: bool, n: nat): int {
    if orderC then n - 1 else 0
  }

  function Step(orderC: bool): int {
    if orderC then -1 else 1
  }

  /** The sizes of the `k` innermost dimensions multiplied up, from `unit` on. */
  method Product(sizes: seq<nat>, orderC: bool, k: nat, unit: int) returns (p: int)
    requires k <= |sizes|
    ensures p == unit * Inner(sizes, orderC, k)
  {
    var i, end := Start(orderC, |sizes|), Start(orderC, |sizes|) + Step(orderC) * k;
    ghost var j: nat := 0;
    p := unit;
    while i != end
      invariant j <= k && i == Start(orderC, |sizes|) + Step(orderC) * j
      invariant p == unit * Inner(sizes, orderC, j)
      decreases k - j
    {
      assert i == Axis(orderC, |sizes|, j);
      Regroup(unit, Inner(sizes, orderC, j), sizes[i]);
      p := p * sizes[i];
      i := i + Step(orderC);
      j := j + 1;
    }
  }

  /** block(), on the dimension with `k` dimensions inside it. */
  method Block(sizes: seq<nat>, orderC: bool, k: nat, nprocs: nat, rank: nat, darg: int, extent: int, elem: Datatype)
    returns (r: Datatype, start: int, ghost blk: nat)
    requires k < |sizes| && nprocs >= 1 && (darg == DFLT_DARG || darg >= 0)
    requires Extent(elem) == extent * Inner(sizes, orderC, k)
    ensures blk == if darg == DFLT_DARG then (sizes[Axis(orderC, |sizes|, k)] + nprocs - 1) / nprocs else darg
    ensures var size := LocalSize(sizes[Axis(orderC, |sizes|, k)], blk, rank);
            && r.entries == Copies(elem.entries, size, 0, Extent(elem))
            && start == if size == 0 then 0 else blk * rank
    ensures r.lb == 0 && r.ub == extent * Inner(sizes, orderC, k + 1)
  {
    var global := sizes[Axis(orderC, |sizes|, k)];
    var blksize: nat := if darg == DFLT_DARG then (global + nprocs - 1) / nprocs else darg;
    var left := global - blksize * rank;
    var mysize := if blksize < left then blksize else left;
    if mysize < 0 {
      mysize := 0;
    }
    if k == 0 {
      r := TypeConstructors.CreateContiguous(mysize, elem);
    } else {
      var stride := Product(sizes, orderC, k, extent);
      r := TypeConstructors.CreateHvector(mysize, 1, stride, elem);
      TypeConstructors.RowsOfOne(elem, mysize, stride);
    }
    start := blksize * rank;
    if mysize == 0 {
      start := 0;
    }
    var ub := Product(sizes, orderC, k + 1, extent);
    r := Resize(r, 0, ub);
    blk := blksize;
  }

  /** A stride of -1 byte from row to row is then also the extent of a row. */
  lemma NotMisread(elem: Datatype, count: nat, blk: nat, nprocs: nat, inner: int, stride: int)
    requires nprocs >= 1 && blk >= 1 && Extent(elem) == inner && stride == (nprocs * blk) * inner
    ensures !TypeConstructors.Misread(elem, count, blk, stride)
  {
    if stride == -1 {
      PeriodCovers(nprocs, blk);
      VectorBounds.MinusOne(inner, nprocs * blk);
    }
  }

  /** The struct of the whole rows and the rest. */
  method AppendRest(rows: Datatype, elem: Datatype, rem: nat, disp: int) returns (r: Datatype)
    ensures r.entries == rows.entries + Copies(elem.entries, rem, disp, Extent(elem))
  {
    var store, args := [rows, elem], StructMerging.Args([0, 1], [1, rem], [0, disp]);
    r := TypeConstructors.CreateStruct(store, args);
    CopiesOne(rows.entries, 0, Extent(rows));
    ShiftZero(rows.entries);
    var one := StructMerging.Members(store, args, 1);
    assert one == StructMerging.Members(store, args, 0) + Copies(rows.entries, 1, 0, Extent(rows));
    assert one == rows.entries;
  }

  /** cyclic(), on the dimension with `k` dimensions inside it. */
  method Cyclic(sizes: seq<nat>, orderC: bool, k: nat, nprocs: nat, rank: nat, darg: int, extent: int, elem: Datatype)
    returns (r: Datatype, start: int, ghost blk: nat, ghost period: nat, ghost size: nat, ghost count: nat, ghost rem: nat)
    requires k < |sizes| && nprocs >= 1 && (darg == DFLT_DARG || darg >= 1)
    requires Extent(elem) == extent * Inner(sizes, orderC, k)
    ensures blk == (if darg == DFLT_DARG then 1 else darg) && period == nprocs * blk >= 1
    ensures size == CyclicSize(sizes[Axis(orderC, |sizes|, k)] - rank * blk, blk, period) && count == size / blk && rem == size % blk
    ensures var stride := period * Extent(elem);
            r.entries == TypeConstructors.Rows(elem, count, blk, stride) + Copies(elem.entries, rem, count * stride, Extent(elem))
    ensures start == if size == 0 then 0 else rank * blk
    ensures r.lb == 0 && r.ub == extent * Inner(sizes, orderC, k + 1)
  {
    var blksize: nat := if darg == DFLT_DARG then 1 else darg;
    PeriodCovers(nprocs, blksize);
    var global: int := sizes[Axis(orderC, |sizes|, k)];
    var stIndex, endIndex := rank * blksize, global - 1;
    var local := LocalCount(endIndex - stIndex + 1, blksize, nprocs * blksize);
    var whole: nat := local / blksize;
    var rest: nat := local % blksize;
    var stride := Product(sizes, orderC, k, nprocs * blksize * extent);
    Regroup(nprocs * blksize, extent, Inner(sizes, orderC, k));
    NotMisread(elem, whole, blksize, nprocs, Extent(elem), stride);
    r := TypeConstructors.CreateHvector(whole, blksize, stride, elem);
    if rest != 0 {
      r := AppendRest(r, elem, rest, whole * stride);
    }
    var ub := Product(sizes, orderC, k + 1, extent);
    r := Resize(r, 0, ub);
    start := rank * blksize;
    if local == 0 {
      start := 0;
    }
    blk, period, size, count, rem := blksize, nprocs * blksize, local, whole, rest;
  }

  method LocalCount(len: int, blksize: nat, period: nat) returns (local: nat)
    requires blksize >= 1 && period >= 1
    ensures local == CyclicSize(len, blksize, period)
  {
    if len <= 0 {
      local := 0;
    } else {
      var whole: nat := len / period * blksize;
      var rem := len % period;
      local := whole + if rem < blksize then rem else blksize;
    }
  }

  // -------------------------------------------------------------- the whole datatype

  lemma BlockOwned(d: Dim, orderC: bool, coord: nat, blk: nat, c: nat, size: nat, start: int)
    requires Valid(d) && coord < d.psize && !d.kind.Cyclic?
    requires blk == BlockSize(d, orderC) && c == Place(d, orderC, coord) && size == LocalSize(d.gsize, blk, c)
    requires start == if size == 0 then 0 else blk * c
    ensures Plus(Range(0, size), start) == Owned(d, orderC, coord)
  {
    BlockIsOwned(d, orderC, coord);
    PlusRange(0, size, start);
    assert size == 0 ==> Range(start, size) == Range(blk * c, size);
  }

  lemma NoCycles(blk: nat, period: int)
    ensures CyclicList(0, 0, blk, period) == []
  {
    GridOfOne([], 0, period);
  }

  lemma CyclicOwned(d: Dim, orderC: bool, coord: nat, blk: nat, period: nat, size: nat, count: nat, rem: nat, start: int)
    requires Valid(d) && coord < d.psize && d.kind.Cyclic? && blk == BlockSize(d, orderC) && period == d.psize * blk >= 1
    requires size == CyclicSize(d.gsize - coord * blk, blk, period) && count == size / blk && rem == size % blk
    requires start == if size == 0 then 0 else coord * blk
    ensures Plus(CyclicList(count, rem, blk, period), start) == Owned(d, orderC, coord)
  {
    CyclicIsOwned(d, orderC, coord, blk, period, coord * blk, size, count, rem);
    if size == 0 {
      NoCycles(blk, period);
      assert Plus([], start) == Plus([], coord * blk);
    }
  }

  lemma CyclicRows(m: seq<Entry>, xs: seq<int>, e: int, p: int, count: nat, blk: nat, period: int, s: int)
    requires s == period * (e * p)
    ensures Copies(Copies(At(m, xs, e), blk, 0, e * p), count, 0, s)
            == At(m, Grid(xs, Grid(Range(0, blk), Range(0, count), period), p), e)
  {
    BlockStep(m, xs, e, p, blk);
    Regroup(period, p, e);
    CopiesAt(m, Grid(xs, Range(0, blk), p), e, count, 0, period * p, 0, s);
    GridOfGrids(xs, Range(0, blk), Range(0, count), p, period);
  }

  lemma CyclicRest(m: seq<Entry>, xs: seq<int>, e: int, p: int, count: nat, rem: nat, period: int, d: int)
    requires d == count * (period * (e * p))
    ensures Copies(At(m, xs, e), rem, d, e * p) == At(m, Grid(xs, Grid(Range(0, rem), [count], period), p), e)
  {
    Regroup(count, period, e * p);
    CopiesAt(m, xs, e, rem, count * period, p, d, p * e);
    GridOfOne(Range(0, rem), count, period);
    PlusRange(0, rem, count * period);
  }

  lemma CyclicStep(m: seq<Entry>, xs: seq<int>, e: int, p: int, count: nat, rem: nat, blk: nat, period: int, s: int)
    requires s == period * (e * p)
    ensures Copies(Copies(At(m, xs, e), blk, 0, e * p), count, 0, s) + Copies(At(m, xs, e), rem, count * s, e * p)
            == At(m, Grid(xs, CyclicList(count, rem, blk, period), p), e)
  {
    var whole, rest := Grid(Range(0, blk), Range(0, count), period), Grid(Range(0, rem), [count], period);
    CyclicRows(m, xs, e, p, count, blk, period, s);
    CyclicRest(m, xs, e, p, count, rem, period, count * s);
    GridAppend(xs, whole, rest, p);
    AtAppend(m, Grid(xs, whole, p), Grid(xs, rest, p), e);
  }

  /** The block() call for a dimension that is not cyclic. */
  method AddBlock(d: Dim, coord: nat, nprocs: nat, rank: nat, darg: int, sizes: seq<nat>, orderC: bool, k: nat, extent: int,
                  elem: Datatype, ghost m: seq<Entry>, ghost xs: seq<int>)
    returns (r: Datatype, start: int, ghost list: seq<int>)
    requires Valid(d) && !d.kind.Cyclic? && k < |sizes| && sizes[Axis(orderC, |sizes|, k)] == d.gsize && coord < d.psize
    requires nprocs == Procs(d, orderC) && rank == Place(d, orderC, coord) && darg == if d.kind.None? then DFLT_DARG else d.darg
    requires Extent(elem) == extent * Inner(sizes, orderC, k) && elem.entries == At(m, xs, extent)
    ensures r.entries == At(m, Grid(xs, list, Inner(sizes, orderC, k)), extent)
    ensures Extent(r) == extent * Inner(sizes, orderC, k + 1)
    ensures Plus(list, start) == Owned(d, orderC, coord)
  {
    ghost var blk: nat;
    r, start, blk := Block(sizes, orderC, k, nprocs, rank, darg, extent, elem);
    ghost var size := LocalSize(d.gsize, blk, rank);
    BlockStep(m, xs, extent, Inner(sizes, orderC, k), size);
    BlockOwned(d, orderC, coord, blk, rank, size, start);
    list := Range(0, size);
  }

  /** The cyclic() call. */
  method AddCyclic(d: Dim, coord: nat, sizes: seq<nat>, orderC: bool, k: nat, extent: int, elem: Datatype,
                   ghost m: seq<Entry>, ghost xs: seq<int>)
    returns (r: Datatype, start: int, ghost list: seq<int>)
    requires Valid(d) && d.kind.Cyclic? && k < |sizes| && sizes[Axis(orderC, |sizes|, k)] == d.gsize && coord < d.psize
    requires Extent(elem) == extent * Inner(sizes, orderC, k) && elem.entries == At(m, xs, extent)
    ensures r.entries == At(m, Grid(xs, list, Inner(sizes, orderC, k)), extent)
    ensures Extent(r) == extent * Inner(sizes, orderC, k + 1)
    ensures Plus(list, start) == Owned(d, orderC, coord)
  {
    ghost var blk, period, size, count, rem;
    r, start, blk, period, size, count, rem := Cyclic(sizes, orderC, k, d.psize, coord, d.darg, extent, elem);
    CyclicStep(m, xs, extent, Inner(sizes, orderC, k), count, rem, blk, period, period * Extent(elem));
    CyclicOwned(d, orderC, coord, blk, period, size, count, rem, start);
    list := CyclicList(count, rem, blk, period);
  }

  /** One turn of the loop over the dimensions. */
  method AddDimension(d: Dim, coord: nat, sizes: seq<nat>, orderC: bool, k: nat, extent: int, elem: Datatype,
                      ghost m: seq<Entry>, ghost xs: seq<int>)
    returns (r: Datatype, start: int, ghost list: seq<int>)
    requires Valid(d) && k < |sizes| && sizes[Axis(orderC, |sizes|, k)] == d.gsize && coord < d.psize
    requires Extent(elem) == extent * Inner(sizes, orderC, k) && elem.entries == At(m, xs, extent)
    ensures r.entries == At(m, Grid(xs, list, Inner(sizes, orderC, k)), extent)
    ensures Extent(r) == extent * Inner(sizes, orderC, k + 1)
    ensures Plus(list, start) == Owned(d, orderC, coord)
  {
    match d.kind
    case Block =>
      r, start, list := AddBlock(d, coord, d.psize, coord, d.darg, sizes, orderC, k, extent, elem, m, xs);
    case Cyclic =>
      r, start, list := AddCyclic(d, coord, sizes, orderC, k, extent, elem, m, xs);
    case None =>
      var nprocs, rank := 1, 0;
      if orderC {
        nprocs, rank := d.psize, coord;
      }
      r, start, list := AddBlock(d, coord, nprocs, rank, DFLT_DARG, sizes, orderC, k, extent, elem, m, xs);
  }

  predicate InGrid(dims: seq<Dim>, coords: seq<nat>) {
    |coords| == |dims| && forall a :: 0 <= a < |dims| ==> coords[a] < dims[a].psize
  }

  lemma {:induction false} CoordsInGrid(dims: seq<Dim>, rank: nat)
    requires ValidDims(dims) && rank < Volume(dims)
    ensures InGrid(dims, Coords(dims, rank))
  {
    if dims != [] {
      var v := Volume(dims[1..]);
      VolumePositive(dims[1..]);
      QuotientBelow(rank, v, dims[0].psize);
      CoordsInGrid(dims[1..], rank % v);
    }
  }

  /** The loop that places the rank in the grid. */
  method GridCoords(dims: seq<Dim>, size: nat, rank: nat) returns (coords: seq<nat>)
    requires ValidDims(dims) && size == Volume(dims)
    ensures coords == Coords(dims, rank)
  {
    var tmp, procs, i := rank, size, 0;
    coords := [];
    assert dims[0..] == dims;
    while i < |dims|
      invariant 0 <= i <= |dims| && tmp >= 0 && procs == Volume(dims[i..])
      invariant coords + Coords(dims[i..], tmp) == Coords(dims, rank)
    {
      VolumePositive(dims[i + 1..]);
      UnfoldCoords(dims, i, tmp);
      Decompose(procs, Volume(dims[i + 1..]), 0, dims[i].psize);
      procs := procs / dims[i].psize;
      ghost var rest := Coords(dims[i + 1..], tmp % procs);
      assert coords + ([tmp / procs] + rest) == (coords + [tmp / procs]) + rest;
      coords := coords + [tmp / procs];
      tmp := tmp % procs;
      i := i + 1;
    }
  }

  lemma UnfoldCoords(dims: seq<Dim>, i: nat, rank: nat)
    requires i < |dims| && ValidDims(dims)
    ensures Volume(dims[i..]) == dims[i].psize * Volume(dims[i + 1..]) && Volume(dims[i + 1..]) >= 1
    ensures Coords(dims[i..], rank) == [rank / Volume(dims[i + 1..])] + Coords(dims[i + 1..], rank % Volume(dims[i + 1..]))
  {
    VolumePositive(dims[i + 1..]);
    assert dims[i..][1..] == dims[i + 1..];
  }

  function OwnedLists(dims: seq<Dim>, orderC: bool, coords: seq<nat>): seq<seq<int>>
    requires ValidDims(dims) && |coords| == |dims|
  {
    seq(|dims|, a requires 0 <= a < |dims| => Owned(dims[a], orderC, coords[a]))
  }

  /** The global array's elements that the process at `coords` owns. */
  function Elements(dims: seq<Dim>, orderC: bool, coords: seq<nat>): seq<int>
    requires ValidDims(dims) && |coords| == |dims|
  {
    Nest(Sizes(dims), OwnedLists(dims, orderC, coords), orderC, |dims|)
  }

  /** The `k` innermost dimensions have their starts: moved there, a list from zero is the owned one. */
  ghost predicate Placed(lists: seq<seq<int>>, owned: seq<seq<int>>, starts: seq<int>, orderC: bool, k: nat) {
    && k <= |lists| == |owned| == |starts|
    && forall j :: 0 <= j < k ==>
         var a := Axis(orderC, |lists|, j); Plus(lists[a], starts[a]) == owned[a]
  }

  lemma PlacedNext(lists: seq<seq<int>>, owned: seq<seq<int>>, starts: seq<int>, orderC: bool, k: nat, list: seq<int>, start: int)
    requires Placed(lists, owned, starts, orderC, k) && k < |lists|
    requires Plus(list, start) == owned[Axis(orderC, |lists|, k)]
    ensures var a := Axis(orderC, |lists|, k); Placed(lists[a := list], owned, starts[a := start], orderC, k + 1)
  {
  }

  lemma AllPlaced(lists: seq<seq<int>>, owned: seq<seq<int>>, starts: seq<int>, orderC: bool)
    requires Placed(lists, owned, starts, orderC, |lists|)
    ensures forall a :: 0 <= a < |lists| ==> owned[a] == Plus(lists[a], starts[a])
  {
    forall a | 0 <= a < |lists|
      ensures owned[a] == Plus(lists[a], starts[a])
    {
      assert a == Axis(orderC, |lists|, Axis(orderC, |lists|, a));
    }
  }

  function NoStarts(n: nat): seq<int> {
    seq(n, a => 0)
  }

  ghost function NoLists(n: nat): seq<seq<int>> {
    seq(n, a => [])
  }

  /** What holds after `k` turns of the loop over the dimensions. */
  ghost predicate Built(m: seq<Entry>, extent: int, r: Datatype, sizes: seq<nat>, lists: seq<seq<int>>, owned: seq<seq<int>>,
                        starts: seq<int>, orderC: bool, k: nat)
  {
    && Placed(lists, owned, starts, orderC, k) && |sizes| == |lists|
    && Extent(r) == extent * Inner(sizes, orderC, k)
    && r.entries == At(m, Nest(sizes, lists, orderC, k), extent)
  }

  lemma BuiltNone(elem: Datatype, sizes: seq<nat>, owned: seq<seq<int>>, orderC: bool)
    requires |sizes| == |owned|
    ensures Built(elem.entries, Extent(elem), elem, sizes, NoLists(|sizes|), owned, NoStarts(|sizes|), orderC, 0)
  {
    AtOrigin(elem.entries, Extent(elem));
  }

  /** The body of the loop over the dimensions. */
  method BuildOne(dims: seq<Dim>, coords: seq<nat>, sizes: seq<nat>, orderC: bool, k: nat, extent: int, last: Datatype,
                  ghost m: seq<Entry>, ghost lists: seq<seq<int>>, ghost owned: seq<seq<int>>, starts: seq<int>)
    returns (r: Datatype, starts': seq<int>, ghost lists': seq<seq<int>>)
    requires ValidDims(dims) && InGrid(dims, coords) && sizes == Sizes(dims) && owned == OwnedLists(dims, orderC, coords)
    requires k < |dims| && Built(m, extent, last, sizes, lists, owned, starts, orderC, k)
    ensures Built(m, extent, r, sizes, lists', owned, starts', orderC, k + 1)
  {
    var i, start := Axis(orderC, |dims|, k), 0;
    ghost var list;
    r, start, list := AddDimension(dims[i], coords[i], sizes, orderC, k, extent, last, m, Nest(sizes, lists, orderC, k));
    PlacedNext(lists, owned, starts, orderC, k, list, start);
    NestNext(sizes, lists, orderC, k, list);
    starts', lists' := starts[i := start], lists[i := list];
  }

  /** The loop over the dimensions, innermost first. */
  method Build(dims: seq<Dim>, orderC: bool, coords: seq<nat>, elem: Datatype, ghost owned: seq<seq<int>>)
    returns (r: Datatype, starts: seq<int>, ghost lists: seq<seq<int>>)
    requires ValidDims(dims) && InGrid(dims, coords) && owned == OwnedLists(dims, orderC, coords)
    ensures Built(elem.entries, Extent(elem), r, Sizes(dims), lists, owned, starts, orderC, |dims|)
  {
    var k, sizes := 0, Sizes(dims);
    r, starts, lists := elem, NoStarts(|dims|), NoLists(|dims|);
    BuiltNone(elem, sizes, owned, orderC);
    while k < |dims|
      invariant 0 <= k <= |dims| && Built(elem.entries, Extent(elem), r, sizes, lists, owned, starts, orderC, k)
    {
      r, starts, lists := BuildOne(dims, coords, sizes, orderC, k, Extent(elem), r, elem.entries, lists, owned, starts);
      k := k + 1;
    }
  }

  /** The loop that adds up the starts. */
  method Displacement(sizes: seq<nat>, starts: seq<int>, orderC: bool) returns (displ: int)
    requires 0 < |sizes| == |starts|
    ensures displ == Origin(sizes, starts, orderC, |sizes|)
  {
    var n, k, size := |sizes|, 1, 1;
    displ := starts[Axis(orderC, n, 0)];
    assert Inner(sizes, orderC, 0) == 1 && Origin(sizes, starts, orderC, 0) == 0;
    assert Origin(sizes, starts, orderC, 1) == displ;
    while k < n
      invariant 1 <= k <= n && size == Inner(sizes, orderC, k - 1)
      invariant displ == Origin(sizes, starts, orderC, k)
    {
      size := size * sizes[Axis(orderC, n, k - 1)];
      displ := displ + size * starts[Axis(orderC, n, k)];
      k := k + 1;
    }
  }

  /** ompi_datatype_create_darray: a rank's datatype is the element type at exactly
      the elements it owns, in the order of the global array. */
  method Create(size: nat, rank: nat, dims: seq<Dim>, orderC: bool, elem: Datatype) returns (r: Datatype)
    requires ValidDims(dims) && size == Volume(dims) && rank < size
    ensures |dims| == 0 ==> r == NULL_COPY
    ensures |dims| > 0 ==>
              && r.entries == At(elem.entries, Elements(dims, orderC, Coords(dims, rank)), Extent(elem))
              && r.lb == 0 && r.ub == Extent(elem) * Inner(Sizes(dims), false, |dims|)
  {
    if |dims| < 1 {
      return NULL_COPY;
    }
    var extent, sizes := Extent(elem), Sizes(dims);
    var coords := GridCoords(dims, size, rank);
    CoordsInGrid(dims, rank);
    var ub := Product(sizes, false, |dims|, extent);
    ghost var lists;
    var last, starts;
    last, starts, lists := Build(dims, orderC, coords, elem, OwnedLists(dims, orderC, coords));
    var displ := Displacement(sizes, starts, orderC);
    AllPlaced(lists, OwnedLists(dims, orderC, coords), starts, orderC);
    NestPlus(sizes, lists, starts, OwnedLists(dims, orderC, coords), orderC, |dims|);
    AtShift(elem.entries, Nest(sizes, lists, orderC, |dims|), extent, displ);
    r := Add(EMPTY, last, 1, displ * extent, ub);
    AddOnce(last, displ * extent, ub);
    r := Resize(r, 0, ub);
  }
}
