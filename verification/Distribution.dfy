/** One dimension of a distributed array: which indices a process coordinate owns
    (section 4.1.4 of MPI-3.1), and the arithmetic of block() and cyclic(). */
module Distribution {
  import opened Basics
  import opened GridIndex

  datatype Kind = Block | Cyclic | None

  datatype Dim = Dim(gsize: nat, kind: Kind, darg: int, psize: nat)

  const DFLT_DARG := -1

  /** What MPI_Type_create_darray checks of each dimension. */
  predicate Valid(d: Dim) {
    && d.gsize >= 1 && d.psize >= 1
    && (d.kind.Block? && d.darg != DFLT_DARG ==> d.darg >= 1 && d.darg * d.psize >= d.gsize)
    && (d.kind.Cyclic? && d.darg != DFLT_DARG ==> d.darg >= 1)
  }

  /** In Fortran order an undistributed dimension is one block on one process,
      whatever the grid says. */
  predicate Pinned(d: Dim, orderC: bool) {
    d.kind.None? && !orderC
  }

  function Procs(d: Dim, orderC: bool): nat {
    if Pinned(d, orderC) then 1 else d.psize
  }

  function Place(d: Dim, orderC: bool, coord: nat): nat {
    if Pinned(d, orderC) then 0 else coord
  }

  function BlockSize(d: Dim, orderC: bool): (blk: nat)
    requires Valid(d)
    ensures blk >= 1 && (!d.kind.Cyclic? ==> blk * Procs(d, orderC) >= d.gsize)
  {
    if d.kind.Cyclic? then (if d.darg == DFLT_DARG then 1 else d.darg)
    else if d.kind.None? || d.darg == DFLT_DARG then
      var n := Procs(d, orderC);
      Ceiling(d.gsize, n);
      (d.gsize + n - 1) / n
    else d.darg
  }

  lemma Ceiling(g: nat, n: nat)
    requires g >= 1 && n >= 1
    ensures (g + n - 1) / n >= 1 && ((g + n - 1) / n) * n >= g
  {
    var q := (g + n - 1) / n;
    assert g + n - 1 == q * n + (g + n - 1) % n;
    if q <= 0 {
      MultipleBelow(q, 0, n);
      assert false;
    }
  }

  /** The process coordinate that owns index `g`: blocks in turn, once or round-robin. */
  function Owner(d: Dim, orderC: bool, g: nat): (c: nat)
    requires Valid(d) && g < d.gsize
    ensures c < Procs(d, orderC)
  {
    var blk := BlockSize(d, orderC);
    if d.kind.Cyclic? then (g / blk) % d.psize
    else
      QuotientBelow(g, blk, Procs(d, orderC));
      g / blk
  }

  lemma QuotientBelow(g: nat, blk: nat, n: nat)
    requires blk >= 1 && g < blk * n
    ensures g / blk < n
  {
    if g / blk >= n {
      MultipleBelow(n, g / blk, blk);
      assert false;
    }
  }

  /** The indices below `n` that the process at `coord` owns. */
  function Select(d: Dim, orderC: bool, coord: nat, n: nat): seq<int>
    requires Valid(d) && n <= d.gsize
  {
    if n == 0 then []
    else Select(d, orderC, coord, n - 1) + if Owner(d, orderC, n - 1) == Place(d, orderC, coord) then [n - 1] else []
  }

  function Owned(d: Dim, orderC: bool, coord: nat): seq<int>
    requires Valid(d)
  {
    Select(d, orderC, coord, d.gsize)
  }

  lemma {:induction false} SelectIsOwned(d: Dim, orderC: bool, coord: nat, n: nat)
    requires Valid(d) && n <= d.gsize
    ensures Within(Select(d, orderC, coord, n), n) && Increasing(Select(d, orderC, coord, n))
    ensures forall g :: g in Select(d, orderC, coord, n) <==> 0 <= g < n && Owner(d, orderC, g) == Place(d, orderC, coord)
  {
    if n > 0 {
      SelectIsOwned(d, orderC, coord, n - 1);
    }
  }

  // ------------------------------------------------------------------------- block

  /** The size of block `c`, cut off at the end of the dimension. */
  function LocalSize(size: nat, blk: nat, c: nat): nat {
    var j := size - blk * c;
    var m := if blk < j then blk else j;
    if m < 0 then 0 else m
  }

  lemma BlockPart(size: nat, blk: nat, c: nat, g: nat)
    requires blk >= 1 && g < size
    ensures g / blk == c <==> blk * c <= g < blk * c + LocalSize(size, blk, c)
  {
    if g / blk == c {
      assert g == blk * c + g % blk;
    }
    if blk * c <= g < blk * c + LocalSize(size, blk, c) {
      Decompose(g, c, g - blk * c, blk);
    }
  }

  lemma BlockIsOwned(d: Dim, orderC: bool, coord: nat)
    requires Valid(d) && !d.kind.Cyclic?
    ensures var blk, c := BlockSize(d, orderC), Place(d, orderC, coord);
            Range(blk * c, LocalSize(d.gsize, blk, c)) == Owned(d, orderC, coord)
  {
    var blk, c := BlockSize(d, orderC), Place(d, orderC, coord);
    var size := LocalSize(d.gsize, blk, c);
    SelectIsOwned(d, orderC, coord, d.gsize);
    forall g
      ensures g in Range(blk * c, size) <==> g in Owned(d, orderC, coord)
    {
      RangeMember(blk * c, size, g);
      if 0 <= g < d.gsize {
        BlockPart(d.gsize, blk, c, g);
      }
    }
    SameList(Range(blk * c, size), Owned(d, orderC, coord));
  }

  // ------------------------------------------------------------------------ cyclic

  /** How many of the `len` indices from its first one on the process owns. */
  function CyclicSize(len: int, blk: nat, period: nat): nat
    requires blk >= 1 && period >= 1
  {
    if len <= 0 then 0
    else (len / period) * blk + (if len % period < blk then len % period else blk)
  }

  /** `count` whole blocks and `rem` more indices, `period` apart. */
  function CyclicList(count: nat, rem: nat, blk: nat, period: int): seq<int> {
    Grid(Range(0, blk), Range(0, count), period) + Grid(Range(0, rem), [count], period)
  }

  lemma PeriodCovers(n: nat, blk: nat)
    requires n >= 1 && blk >= 1
    ensures n * blk >= blk
  {
    MultipleBelow(1, n, blk);
  }

  lemma Unfold(q: int, n: int, c: int, blk: int)
    ensures (q * n + c) * blk == q * (n * blk) + c * blk
  {
    Distribute(q * n, c, blk);
    Regroup(q, n, blk);
  }

  lemma InItsBlock(n: nat, blk: nat, c: nat, g: nat, q: nat, b: nat, per: nat)
    requires per == n * blk >= blk > b && g == (q * n + c) * blk + b
    ensures g - c * blk >= 0 && (g - c * blk) % per < blk
  {
    Unfold(q, n, c, blk);
    EarlyIn(g - c * blk, q, b, per);
  }

  lemma EarlyIn(y: int, q: nat, b: nat, per: nat)
    requires y == q * per + b && b < per
    ensures y >= 0 && y % per == b
  {
    Decompose(y, q, b, per);
    ProductNonNegative(q, per);
  }

  lemma OwnerToPeriod(n: nat, blk: nat, c: nat, g: nat, t: nat, per: nat)
    requires n >= 1 && blk >= 1 && per == n * blk >= blk && t == g / blk && t % n == c
    ensures g - c * blk >= 0 && (g - c * blk) % per < blk
  {
    DivMod(t, n);
    DivMod(g, blk);
    InItsBlock(n, blk, c, g, t / n, g % blk, per);
  }

  lemma PeriodToOwner(n: nat, blk: nat, c: nat, g: nat, q: nat, b: nat)
    requires c < n && b < blk && g - c * blk == q * (n * blk) + b
    ensures (g / blk) % n == c
  {
    Unfold(q, n, c, blk);
    Decompose(g, q * n + c, b, blk);
    Decompose(q * n + c, q, c, n);
  }

  /** Index `g` is in a block of process `c` exactly when its distance from the
      process's first index is early in the period. */
  lemma CyclicPart(n: nat, blk: nat, c: nat, g: nat, per: nat)
    requires n >= 1 && blk >= 1 && c < n && per == n * blk >= blk
    ensures (g / blk) % n == c <==> g - c * blk >= 0 && (g - c * blk) % per < blk
  {
    if (g / blk) % n == c {
      OwnerToPeriod(n, blk, c, g, g / blk, per);
    }
    var y := g - c * blk;
    if y >= 0 && y % per < blk {
      DivMod(y, per);
      PeriodToOwner(n, blk, c, g, y / per, y % per);
    }
  }

  /** Below `len` is: in an earlier period, or in the last one and before its end. */
  lemma Below(y: nat, len: nat, period: nat)
    requires period >= 1
    ensures y < len <==> y / period < len / period || (y / period == len / period && y % period < len % period)
  {
    var q, b, q', r := y / period, y % period, len / period, len % period;
    assert y == q * period + b && len == q' * period + r;
    if q < q' {
      RowBefore(b, q, len, period);
    } else if q > q' {
      RowBefore(r, q', y, period);
    }
  }

  lemma BeforeFirst(y: int, period: nat)
    requires y < 0 && period >= 1
    ensures y / period < 0
  {
    if y / period >= 0 {
      ProductNonNegative(y / period, period);
      assert false;
    }
  }

  /** `count` whole blocks and `rem` indices more are what `len` indices hold. */
  predicate Counted(len: nat, blk: nat, period: nat, count: nat, rem: nat)
    requires period >= 1
  {
    if len % period < blk then count == len / period && rem == len % period
    else count == len / period + 1 && rem == 0
  }

  lemma CountAndRest(len: nat, blk: nat, period: nat)
    requires blk >= 1 && period >= 1
    ensures var size := CyclicSize(len, blk, period); Counted(len, blk, period, size / blk, size % blk)
  {
    var size := CyclicSize(len, blk, period);
    if len == 0 {
      Decompose(0, 0, 0, period);
      Decompose(0, 0, 0, blk);
    } else if len % period < blk {
      Decompose(size, len / period, len % period, blk);
    } else {
      Distribute(len / period, 1, blk);
      Decompose(size, len / period + 1, 0, blk);
    }
  }

  lemma CyclicListMember(count: nat, rem: nat, blk: nat, period: int, y: int)
    requires rem <= blk <= period && blk >= 1
    ensures y in CyclicList(count, rem, blk, period)
            <==> (0 <= y / period < count && y % period < blk) || (y / period == count && y % period < rem)
  {
    GridMember(Range(0, blk), Range(0, count), period, y);
    GridMember(Range(0, rem), [count], period, y);
    RangeMember(0, blk, y % period);
    RangeMember(0, count, y / period);
    RangeMember(0, rem, y % period);
  }

  lemma CyclicListIncreasing(count: nat, rem: nat, blk: nat, period: int)
    requires rem <= blk <= period && blk >= 1
    ensures Increasing(CyclicList(count, rem, blk, period))
  {
    var xs, ys := Grid(Range(0, blk), Range(0, count), period), Grid(Range(0, rem), [count], period);
    GridIncreasing(Range(0, blk), Range(0, count), period);
    GridIncreasing(Range(0, rem), [count], period);
    GridOfOne(Range(0, rem), count, period);
    GridWithin(Range(0, blk), Range(0, count), period, count);
    AppendIncreasing(xs, ys);
  }

  /** The list a process builds holds exactly the early indices of each period below `len`. */
  lemma CyclicListCounts(len: nat, blk: nat, period: nat, count: nat, rem: nat, y: int)
    requires 1 <= blk <= period && Counted(len, blk, period, count, rem)
    ensures y in CyclicList(count, rem, blk, period) <==> 0 <= y < len && y % period < blk
  {
    CyclicListMember(count, rem, blk, period, y);
    if y >= 0 {
      Below(y, len, period);
    } else {
      BeforeFirst(y, period);
    }
  }

  lemma CyclicMember(d: Dim, orderC: bool, coord: nat, blk: nat, period: nat, start: nat, len: nat, count: nat, rem: nat, g: int)
    requires Valid(d) && d.kind.Cyclic? && coord < d.psize && blk == BlockSize(d, orderC)
    requires period == d.psize * blk >= blk && start == coord * blk && len == Larger(d.gsize - start, 0)
    requires Counted(len, blk, period, count, rem)
    ensures g in Plus(CyclicList(count, rem, blk, period), start) <==> 0 <= g < d.gsize && Owner(d, orderC, g) == coord
  {
    PlusMember(CyclicList(count, rem, blk, period), start, g);
    CyclicListCounts(len, blk, period, count, rem, g - start);
    if 0 <= g < d.gsize {
      CyclicPart(d.psize, blk, coord, g, period);
    }
  }

  lemma CyclicIsOwned(d: Dim, orderC: bool, coord: nat, blk: nat, period: nat, start: nat, size: nat, count: nat, rem: nat)
    requires Valid(d) && d.kind.Cyclic? && coord < d.psize && blk == BlockSize(d, orderC)
    requires period == d.psize * blk >= 1 && start == coord * blk && size == CyclicSize(d.gsize - start, blk, period)
    requires count == size / blk && rem == size % blk
    ensures Plus(CyclicList(count, rem, blk, period), start) == Owned(d, orderC, coord)
  {
    PeriodCovers(d.psize, blk);
    var len := Larger(d.gsize - start, 0);
    CountAndRest(len, blk, period);
    CyclicListOwned(d, orderC, coord, blk, period, start, len, count, rem);
  }

  lemma CyclicListOwned(d: Dim, orderC: bool, coord: nat, blk: nat, period: nat, start: nat, len: nat, count: nat, rem: nat)
    requires Valid(d) && d.kind.Cyclic? && coord < d.psize && blk == BlockSize(d, orderC) && rem <= blk
    requires period == d.psize * blk >= blk && start == coord * blk && len == Larger(d.gsize - start, 0)
    requires Counted(len, blk, period, count, rem)
    ensures Plus(CyclicList(count, rem, blk, period), start) == Owned(d, orderC, coord)
  {
    var rel := CyclicList(count, rem, blk, period);
    SelectIsOwned(d, orderC, coord, d.gsize);
    CyclicListIncreasing(count, rem, blk, period);
    PlusIncreasing(rel, start);
    forall g
      ensures g in Plus(rel, start) <==> g in Owned(d, orderC, coord)
    {
      CyclicMember(d, orderC, coord, blk, period, start, len, count, rem, g);
    }
    SameList(Plus(rel, start), Owned(d, orderC, coord));
  }
}
