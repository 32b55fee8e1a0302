/** The bounds of contiguous and vector types (ompi/datatype/ompi_datatype_create_contiguous.c and
    ompi_datatype_create_vector.c), said of the places of their elements: how far the padding of
    a row and the padding of the whole go beyond the rounding of section 4.1.6 of MPI-3.1. */
module VectorBounds {
  import opened Basics
  import opened Typemap
  import opened Merging

  // ------------------------------------------------------------------ what is meant

  /** Where element `j` of row `k` starts. */
  function Place(k: nat, j: nat, step: int, e: int): int {
    k * step + j * e
  }

  ghost predicate Lowest(x: int, count: nat, blocklength: nat, step: int, e: int) {
    && (forall k: nat, j: nat {:trigger Place(k, j, step, e)} :: k < count && j < blocklength ==> x <= Place(k, j, step, e))
    && exists k: nat, j: nat {:trigger Place(k, j, step, e)} :: k < count && j < blocklength && x == Place(k, j, step, e)
  }

  ghost predicate Highest(x: int, count: nat, blocklength: nat, step: int, e: int) {
    && (forall k: nat, j: nat {:trigger Place(k, j, step, e)} :: k < count && j < blocklength ==> Place(k, j, step, e) <= x)
    && exists k: nat, j: nat {:trigger Place(k, j, step, e)} :: k < count && j < blocklength && x == Place(k, j, step, e)
  }

  function Magnitude(x: int): nat {
    if x < 0 then -x else x
  }

  function Alignment(t: Datatype): (a: nat)
    ensures a >= 1
  {
    if t.align == 0 then 1 else t.align
  }

  /** From the lower to the upper bound of a row, without padding. */
  function RowSpan(elem: Datatype, blocklength: nat): int {
    Magnitude((blocklength - 1) * Extent(elem)) + Extent(elem)
  }

  /** The extent of a row; a single element stays as it is. */
  function RowExtent(elem: Datatype, blocklength: nat): int {
    var span := RowSpan(elem, blocklength);
    if blocklength == 1 || elem.userUb then span else span + (-span) % Alignment(elem)
  }

  /** From row to row: -1 byte is taken for the extent of a row. */
  function Step(elem: Datatype, blocklength: nat, stride: int): int {
    if stride == -1 then RowExtent(elem, blocklength) else stride
  }

  /** Rounding a row and rounding the whole amount to rounding once. */
  predicate RoundsOnce(row: int, rows: int, a: nat)
    requires a >= 1
  {
    row % a == 0 || rows % a == 0 || row % a + rows % a > a
  }

  /** When the upper bound is that of the elements rounded up once. Single elements may lie the
      wrong way round; longer rows are padded first unless they are contiguous. */
  predicate Snug(elem: Datatype, count: nat, blocklength: nat, stride: int)
    requires count >= 1
  {
    var a, row := Alignment(elem), RowSpan(elem, blocklength);
    var rows := Magnitude((count - 1) * Step(elem, blocklength, stride));
    if blocklength == 1 then rows + row >= 0 || (rows + row) % a == 0
    else blocklength * Extent(elem) == stride || RoundsOnce(row, rows, a)
  }

  /** `ub` rounded up so that the extent from `lb` is a multiple of the alignment. */
  function RoundUp(lb: int, ub: int, a: nat): int
    requires a >= 1
  {
    ub + (lb - ub) % a
  }

  /** `r` spans the elements of all rows. Its upper bound is rounded up to the alignment, and goes
      a whole alignment further exactly when the padding is not snug. */
  ghost predicate Framed(r: Datatype, elem: Datatype, count: nat, blocklength: nat, stride: int)
    requires count >= 1
  {
    var e, step, a := Extent(elem), Step(elem, blocklength, stride), Alignment(elem);
    && r.userLb == elem.userLb && r.userUb == elem.userUb && r.align == a
    && Lowest(r.lb - elem.lb, count, blocklength, step, e)
    && exists high {:trigger Highest(high, count, blocklength, step, e)} ::
        && Highest(high, count, blocklength, step, e)
        && r.ub == if elem.userUb then high + elem.ub
                   else RoundUp(r.lb, high + elem.ub, a) + (if Snug(elem, count, blocklength, stride) then 0 else a)
  }

  // ------------------------------------------------------------------ the places

  lemma Between(n: nat, k: nat, d: int)
    requires k < n
    ensures Smaller(0, (n - 1) * d) <= k * d <= Larger(0, (n - 1) * d)
  {
    if d >= 0 {
      MultipleBelow(0, k, d);
      MultipleBelow(k, n - 1, d);
    } else {
      MultipleBelow(0, k, -d);
      MultipleBelow(k, n - 1, -d);
    }
  }

  lemma Extremes(count: nat, blocklength: nat, step: int, e: int)
    requires count >= 1 && blocklength >= 1
    ensures Lowest(Smaller(0, (count - 1) * step) + Smaller(0, (blocklength - 1) * e), count, blocklength, step, e)
    ensures Highest(Larger(0, (count - 1) * step) + Larger(0, (blocklength - 1) * e), count, blocklength, step, e)
  {
    forall k: nat, j: nat | k < count && j < blocklength
      ensures Smaller(0, (count - 1) * step) + Smaller(0, (blocklength - 1) * e) <= Place(k, j, step, e)
      ensures Place(k, j, step, e) <= Larger(0, (count - 1) * step) + Larger(0, (blocklength - 1) * e)
    {
      Between(count, k, step);
      Between(blocklength, j, e);
    }
    var down, left := if (count - 1) * step > 0 then 0 else count - 1, if (blocklength - 1) * e > 0 then 0 else blocklength - 1;
    var up, right := if (count - 1) * step > 0 then count - 1 else 0, if (blocklength - 1) * e > 0 then blocklength - 1 else 0;
    assert Place(down, left, step, e) == Smaller(0, (count - 1) * step) + Smaller(0, (blocklength - 1) * e);
    assert Place(up, right, step, e) == Larger(0, (count - 1) * step) + Larger(0, (blocklength - 1) * e);
  }

  // ------------------------------------------------------------------ the padding

  lemma Opposite(x: int, a: nat)
    requires a >= 1
    ensures x % a == 0 ==> (-x) % a == 0
    ensures x % a != 0 ==> (-x) % a == a - x % a
  {
    DivMod(x, a);
    var q, rest := x / a, x % a;
    Distribute(-q, -1, a);
    if rest == 0 {
      Decompose(-x, -q, 0, a);
    } else {
      Decompose(-x, -q - 1, a - rest, a);
    }
  }

  /** The remainder that truncates rounds up, and once too often where the bounds are the wrong way round. */
  lemma PaddedIs(lb: int, ub: int, a: nat)
    requires a >= 1
    ensures Padded(lb, ub, a, false) == RoundUp(lb, ub, a) + (if ub >= lb || (ub - lb) % a == 0 then 0 else a)
  {
    Opposite(ub - lb, a);
    Opposite(lb - ub, a);
  }

  lemma RoundedSum(x: int, y: int, a: nat)
    requires a >= 1
    ensures (-x) % a + (-y) % a == (-x - y) % a + (if RoundsOnce(x, y, a) then 0 else a)
  {
    Opposite(x, a);
    Opposite(y, a);
    var r, s := (-x) % a, (-y) % a;
    DivMod(-x, a);
    DivMod(-y, a);
    var q := (-x) / a + (-y) / a;
    Distribute((-x) / a, (-y) / a, a);
    Distribute(q, 1, a);
    if r + s < a {
      Decompose(-x - y, q, r + s, a);
    } else {
      Decompose(-x - y, q + 1, r + s - a, a);
    }
  }

  /** Rounded to a multiple. */
  lemma RoundedIs(x: int, a: nat)
    requires a >= 1
    ensures (x + (-x) % a) % a == 0
  {
    DivMod(-x, a);
    Decompose(x + (-x) % a, -((-x) / a), 0, a);
  }

  // ------------------------------------------------------------------ one addition

  /** What is added to an empty type. */
  lemma AddedFresh(t: Datatype, n: nat, d: int)
    requires n >= 1 && Bounded(t)
    ensures var r, step, a := Add(EMPTY, t, n, 0, d), if d == -1 then Extent(t) else d, Alignment(t);
            && r.userLb == t.userLb && r.userUb == t.userUb && r.align == a
            && r.lb == Smaller(0, (n - 1) * step) + t.lb
            && r.ub == Padded(r.lb, Larger(0, (n - 1) * step) + t.ub, a, t.userUb)
  {
  }

  lemma SpanOrdered(elem: Datatype, blocklength: nat)
    requires blocklength >= 2
    ensures RowSpan(elem, blocklength) >= 0
  {
    var e := Extent(elem);
    if e >= 0 {
      ProductNonNegative(blocklength - 1, e);
    } else {
      MultipleBelow(1, blocklength - 1, -e);
    }
  }

  /** Bounds from the places, for copies added in one go. */
  lemma FramedOnce(r: Datatype, elem: Datatype, count: nat, blocklength: nat, stride: int, low: int, high: int)
    requires count >= 1 && blocklength >= 1
    requires var step, e := Step(elem, blocklength, stride), Extent(elem);
             && low == Smaller(0, (count - 1) * step) + Smaller(0, (blocklength - 1) * e)
             && high == Larger(0, (count - 1) * step) + Larger(0, (blocklength - 1) * e)
    requires blocklength == 1 || count == 1 || blocklength * Extent(elem) == stride
    requires r.userLb == elem.userLb && r.userUb == elem.userUb && r.align == Alignment(elem)
    requires r.lb == low + elem.lb && r.ub == Padded(r.lb, high + elem.ub, Alignment(elem), elem.userUb)
    ensures Framed(r, elem, count, blocklength, stride)
  {
    var step, e, a := Step(elem, blocklength, stride), Extent(elem), Alignment(elem);
    Extremes(count, blocklength, step, e);
    PaddedIs(r.lb, high + elem.ub, a);
    assert high + elem.ub - r.lb == Magnitude((count - 1) * step) + RowSpan(elem, blocklength);
    if blocklength >= 2 {
      SpanOrdered(elem, blocklength);
    }
    assert Highest(high, count, blocklength, step, e);
  }

  // ------------------------------------------------------------------ the branches

  /** Contiguous rows lie one way, so their span is that of one long row. */
  lemma OneLongRow(count: nat, blocklength: nat, e: int)
    requires count >= 1 && blocklength >= 1
    ensures var rows, row, all := (count - 1) * (blocklength * e), (blocklength - 1) * e, (count * blocklength - 1) * e;
            && Smaller(0, rows) + Smaller(0, row) == Smaller(0, all)
            && Larger(0, rows) + Larger(0, row) == Larger(0, all)
  {
    Regroup(count - 1, blocklength, e);
    Distribute((count - 1) * blocklength, blocklength - 1, e);
    Distribute(count, -1, blocklength);
    ProductNonNegative(count - 1, blocklength);
    if e >= 0 {
      ProductNonNegative((count - 1) * blocklength, e);
      ProductNonNegative(blocklength - 1, e);
    } else {
      ProductNonNegative((count - 1) * blocklength, -e);
      ProductNonNegative(blocklength - 1, -e);
    }
  }

  lemma MinusOne(e: int, blocklength: nat)
    requires blocklength * e == -1
    ensures blocklength == 1 && e == -1
  {
    if blocklength >= 2 {
      if e >= 0 {
        ProductNonNegative(blocklength, e);
      } else {
        MultipleBelow(1, -e, blocklength);
      }
    }
  }

  lemma ContiguousFramed(elem: Datatype, count: nat, blocklength: nat, stride: int)
    requires count >= 1 && blocklength >= 1 && Bounded(elem) && (blocklength * Extent(elem) == stride || count == 1)
    ensures Framed(Add(EMPTY, elem, count * blocklength, 0, Extent(elem)), elem, count, blocklength, stride)
  {
    var e, n := Extent(elem), count * blocklength;
    MultipleBelow(1, count, blocklength);
    AddedFresh(elem, n, e);
    OneLongRow(count, blocklength, e);
    if count > 1 && stride == -1 {
      MinusOne(e, blocklength);
    }
    FramedOnce(Add(EMPTY, elem, n, 0, e), elem, count, blocklength, stride, Smaller(0, (n - 1) * e), Larger(0, (n - 1) * e));
  }

  lemma SinglesFramed(elem: Datatype, count: nat, stride: int)
    requires count >= 1 && Bounded(elem)
    ensures Framed(Add(EMPTY, elem, count, 0, stride), elem, count, 1, stride)
  {
    var step := Step(elem, 1, stride);
    AddedFresh(elem, count, stride);
    FramedOnce(Add(EMPTY, elem, count, 0, stride), elem, count, 1, stride,
               Smaller(0, (count - 1) * step), Larger(0, (count - 1) * step));
  }

  /** A row of several elements, as the type that the rows are copies of. */
  lemma RowIs(elem: Datatype, blocklength: nat)
    requires blocklength >= 2 && Bounded(elem)
    ensures var row, along := Add(EMPTY, elem, blocklength, 0, Extent(elem)), (blocklength - 1) * Extent(elem);
            && row.userLb == elem.userLb && row.userUb == elem.userUb && row.align == Alignment(elem)
            && row.lb == Smaller(0, along) + elem.lb
            && row.ub == row.lb + RowExtent(elem, blocklength)
            && Bounded(row)
  {
    var row, along, a := Add(EMPTY, elem, blocklength, 0, Extent(elem)), (blocklength - 1) * Extent(elem), Alignment(elem);
    AddedFresh(elem, blocklength, Extent(elem));
    SpanOrdered(elem, blocklength);
    PaddedIs(row.lb, Larger(0, along) + elem.ub, a);
    assert Larger(0, along) + elem.ub - row.lb == RowSpan(elem, blocklength);
    assert row.ub >= Larger(0, along) + elem.ub;
  }

  /** The bound of rows that were padded before, against that of their elements. */
  lemma PaddedTwice(elem: Datatype, lb: int, span: int, rows: nat)
    requires span >= 0
    ensures var a := Alignment(elem);
            Padded(lb, lb + rows + (span + (-span) % a), a, false)
            == RoundUp(lb, lb + rows + span, a) + (if RoundsOnce(span, rows, a) then 0 else a)
  {
    var a := Alignment(elem);
    var padded := span + (-span) % a;
    PaddedIs(lb, lb + rows + padded, a);
    RoundedSum(span, rows, a);
    RoundedIs(span, a);
    RoundedSum(padded, rows, a);
    Opposite(padded, a);
    assert lb - (lb + rows + padded) == -padded - rows;
    assert lb - (lb + rows + span) == -span - rows;
  }

  lemma RowsFramed(elem: Datatype, count: nat, blocklength: nat, stride: int)
    requires count >= 1 && blocklength >= 2 && Bounded(elem)
    requires Extent(elem) == 0 || blocklength * Extent(elem) != stride
    ensures Framed(Add(EMPTY, Add(EMPTY, elem, blocklength, 0, Extent(elem)), count, 0, stride), elem, count, blocklength, stride)
  {
    var row := Add(EMPTY, elem, blocklength, 0, Extent(elem));
    RowIs(elem, blocklength);
    AddedFresh(row, count, stride);
    SpanOrdered(elem, blocklength);
    RowsBounds(Add(EMPTY, row, count, 0, stride), row, elem, count, blocklength, stride);
  }

  lemma RowsBounds(r: Datatype, row: Datatype, elem: Datatype, count: nat, blocklength: nat, stride: int)
    requires count >= 1 && blocklength >= 2 && RowSpan(elem, blocklength) >= 0
    requires Extent(elem) == 0 || blocklength * Extent(elem) != stride
    requires r.userLb == elem.userLb && r.userUb == elem.userUb && r.align == Alignment(elem)
    requires row.lb == Smaller(0, (blocklength - 1) * Extent(elem)) + elem.lb && row.ub == row.lb + RowExtent(elem, blocklength)
    requires var apart := (count - 1) * Step(elem, blocklength, stride);
             && r.lb == Smaller(0, apart) + row.lb
             && r.ub == Padded(r.lb, Larger(0, apart) + row.ub, Alignment(elem), elem.userUb)
    ensures Framed(r, elem, count, blocklength, stride)
  {
    var e, step, span := Extent(elem), Step(elem, blocklength, stride), RowSpan(elem, blocklength);
    var apart, along := (count - 1) * step, (blocklength - 1) * e;
    Extremes(count, blocklength, step, e);
    var high := Larger(0, apart) + Larger(0, along);
    assert high + elem.ub == r.lb + Magnitude(apart) + span;
    PaddedTwice(elem, r.lb, span, Magnitude(apart));
    assert Highest(high, count, blocklength, step, e);
    if e == 0 {
      assert span == 0;
    }
  }

  // ------------------------------------------------------------------ what it comes to

  /** The frame determines the bounds. */
  lemma FrameIsUnique(r: Datatype, elem: Datatype, count: nat, blocklength: nat, stride: int)
    requires count >= 1 && blocklength >= 1 && Framed(r, elem, count, blocklength, stride)
    ensures var apart, along := (count - 1) * Step(elem, blocklength, stride), (blocklength - 1) * Extent(elem);
            var high, a := Larger(0, apart) + Larger(0, along) + elem.ub, Alignment(elem);
            && r.lb == Smaller(0, apart) + Smaller(0, along) + elem.lb
            && r.ub == if elem.userUb then high
                       else RoundUp(r.lb, high, a) + (if Snug(elem, count, blocklength, stride) then 0 else a)
  {
    Extremes(count, blocklength, Step(elem, blocklength, stride), Extent(elem));
  }

  /** Without a marker the extent is a multiple of the alignment, however much padding there is. */
  lemma FrameIsLevel(r: Datatype, elem: Datatype, count: nat, blocklength: nat, stride: int)
    requires count >= 1 && Framed(r, elem, count, blocklength, stride) && !elem.userUb
    ensures Extent(r) % Alignment(elem) == 0
  {
    var e, step, a := Extent(elem), Step(elem, blocklength, stride), Alignment(elem);
    var high :| Highest(high, count, blocklength, step, e)
                && r.ub == RoundUp(r.lb, high + elem.ub, a) + (if Snug(elem, count, blocklength, stride) then 0 else a);
    RoundedIs(high + elem.ub - r.lb, a);
    Decompose(a, 1, 0, a);
    ModSum(RoundUp(r.lb, high + elem.ub, a) - r.lb, a, a);
  }

  /** Rows of two 3-byte types aligned to 4 bytes are padded twice when they lie 9 bytes apart. */
  lemma OddRows(odd: Datatype)
    requires odd == Datatype([Entry(0, 0)], 0, 3, false, false, 4)
    ensures Bounded(odd) && Step(odd, 2, 9) == 9 && !Snug(odd, 2, 2, 9) && RoundUp(0, 15, Alignment(odd)) == 16
  {
  }

  /** They reach to 20, where one rounding gives 16. */
  lemma PaddedTwiceOver(r: Datatype, odd: Datatype)
    requires odd == Datatype([Entry(0, 0)], 0, 3, false, false, 4) && Framed(r, odd, 2, 2, 9)
    ensures r.lb == 0 && r.ub == 20
  {
    OddRows(odd);
    FrameIsUnique(r, odd, 2, 2, 9);
  }
}
