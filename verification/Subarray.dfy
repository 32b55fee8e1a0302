/** ompi_datatype_create_subarray: a box of a multi-dimensional array. */
module Subarray {
  import opened Basics
  import opened Typemap
  import opened GridIndex
  import opened Scatter
  import TypeConstructors
  import VectorBounds

  /** In each dimension, `subs` indices from `starts` on. */
  function Ranges(starts: seq<int>, subs: seq<nat>): seq<seq<int>>
    requires |starts| == |subs|
  {
    seq(|subs|, a requires 0 <= a < |subs| => Range(starts[a], subs[a]))
  }

  /** The elements of the box, in the order of the array. */
  function Box(sizes: seq<nat>, subs: seq<nat>, starts: seq<int>, orderC: bool): seq<int>
    requires |sizes| == |subs| == |starts|
  {
    Nest(sizes, Ranges(starts, subs), orderC, |sizes|)
  }

  function Zeros(n: nat): seq<int> {
    seq(n, a => 0)
  }

  lemma BoxAtOrigin(sizes: seq<nat>, subs: seq<nat>, starts: seq<int>, orderC: bool)
    requires |sizes| == |subs| == |starts|
    ensures Box(sizes, subs, starts, orderC)
            == Plus(Nest(sizes, Ranges(Zeros(|subs|), subs), orderC, |sizes|), Origin(sizes, starts, orderC, |sizes|))
  {
    var lists, moved := Ranges(Zeros(|subs|), subs), Ranges(starts, subs);
    forall a | 0 <= a < |subs|
      ensures moved[a] == Plus(lists[a], starts[a])
    {
      PlusRange(0, subs[a], starts[a]);
    }
    NestPlus(sizes, lists, starts, moved, orderC, |sizes|);
  }

  /** One more dimension around the box. */
  lemma OneMore(m: seq<Entry>, sizes: seq<nat>, lists: seq<seq<int>>, sub: nat, orderC: bool, k: nat, e: int)
    requires k < |sizes| == |lists| && lists[Axis(orderC, |sizes|, k)] == Range(0, sub)
    ensures Copies(At(m, Nest(sizes, lists, orderC, k), e), sub, 0, e * Inner(sizes, orderC, k))
            == At(m, Nest(sizes, lists, orderC, k + 1), e)
  {
    BlockStep(m, Nest(sizes, lists, orderC, k), e, Inner(sizes, orderC, k), sub);
  }

  lemma Innermost(m: seq<Entry>, sizes: seq<nat>, lists: seq<seq<int>>, sub: nat, orderC: bool, e: int)
    requires 0 < |sizes| == |lists| && lists[Axis(orderC, |sizes|, 0)] == Range(0, sub)
    ensures Copies(m, sub, 0, e) == At(m, Nest(sizes, lists, orderC, 1), e)
  {
    AtOrigin(m, e);
    assert Nest(sizes, lists, orderC, 0) == [0] && Inner(sizes, orderC, 0) == 1;
    OneMore(m, sizes, lists, sub, orderC, 0, e);
  }

  // ---------------------------------------------------- when a stride is misread

  /** The element type is one byte long, backwards, and gets padded when it is copied into a new type. */
  predicate Fragile(elem: Datatype) {
    Extent(elem) == -1 && elem.entries != [] && !elem.userUb && elem.align > 1
  }

  predicate NoneEmpty(subs: seq<nat>, orderC: bool, k: nat)
    requires k <= |subs|
  {
    forall j :: 0 <= j < k ==> subs[Axis(orderC, |subs|, j)] >= 1
  }

  /** One of the outer dimensions has several indices in the box while all dimensions inside it have size 1. */
  predicate ThinBelow(sizes: seq<nat>, subs: seq<nat>, orderC: bool, k: nat)
    requires k <= |sizes| == |subs|
  {
    exists i :: 2 <= i < k && ThinAt(sizes, subs, orderC, i)
  }

  predicate ThinAt(sizes: seq<nat>, subs: seq<nat>, orderC: bool, i: nat)
    requires i < |sizes| == |subs|
  {
    Inner(sizes, orderC, i) == 1 && subs[Axis(orderC, |sizes|, i)] >= 2
  }

  /** A stride of -1 byte is taken for the padded extent. */
  predicate Derails(sizes: seq<nat>, subs: seq<nat>, orderC: bool, elem: Datatype, k: nat)
    requires k <= |sizes| == |subs|
  {
    Fragile(elem) && NoneEmpty(subs, orderC, k) && ThinBelow(sizes, subs, orderC, k)
  }

  /** A column of two such elements in three dimensions. */
  lemma ColumnDerails()
    ensures var elem := Datatype([Entry(0, 0)], 0, -1, false, false, 4);
            Derails([2, 1, 1], [2, 1, 1], true, elem, 3)
  {
    var sizes: seq<nat> := [2, 1, 1];
    assert Inner(sizes, true, 0) == 1 && Inner(sizes, true, 1) == 1 && Inner(sizes, true, 2) == 1;
    assert ThinAt(sizes, sizes, true, 2);
  }

  predicate Fitting(sizes: seq<nat>, subs: seq<nat>) {
    |sizes| == |subs| && forall a :: 0 <= a < |sizes| ==> subs[a] <= sizes[a]
  }

  lemma {:induction false} InnerOne(sizes: seq<nat>, orderC: bool, k: nat, j: nat)
    requires j < k <= |sizes| && Inner(sizes, orderC, k) == 1
    ensures sizes[Axis(orderC, |sizes|, j)] == 1 && Inner(sizes, orderC, j) == 1
    decreases k
  {
    UnitProduct(Inner(sizes, orderC, k - 1), sizes[Axis(orderC, |sizes|, k - 1)]);
    if j < k - 1 {
      InnerOne(sizes, orderC, k - 1, j);
    }
  }

  lemma UnitProduct(a: nat, b: nat)
    requires a * b == 1
    ensures a == 1 && b == 1
  {
    if b >= 2 && a >= 1 {
      MultipleBelow(1, a, b);
    }
  }

  /** After a thin dimension no stride is -1 byte any more. */
  lemma NotThinTwice(sizes: seq<nat>, subs: seq<nat>, orderC: bool, k: nat)
    requires k <= |sizes| && Fitting(sizes, subs) && ThinBelow(sizes, subs, orderC, k)
    ensures Inner(sizes, orderC, k) != 1
  {
    var i :| 2 <= i < k && ThinAt(sizes, subs, orderC, i);
    if Inner(sizes, orderC, k) == 1 {
      InnerOne(sizes, orderC, k, i);
    }
  }

  /** What copying a type once into a new one makes of its bounds. */
  predicate Wrapped(elem: Datatype, t: Datatype) {
    && t.lb == elem.lb && t.userUb == elem.userUb && t.align == Larger(elem.align, 1) && Bounded(t)
    && Extent(t) == if elem.userUb || elem.align <= 1 then -1 else elem.align
  }

  lemma WrapOnce(elem: Datatype, t: Datatype)
    requires Bounded(t) && Extent(elem) == -1 && (t == elem || Wrapped(elem, t))
    ensures Wrapped(elem, Add(EMPTY, t, 1, 0, Extent(t)))
  {
    var bounds := BoundsOfCopies(t, 1, 0, Extent(t));
    assert bounds == (t.lb, t.ub);
    SmallRemainders(Larger(elem.align, 1));
  }

  lemma SmallRemainders(a: nat)
    requires a >= 1
    ensures a > 1 ==> Remainder(-1, a) == -1
    ensures Remainder(a, a) == 0 && Remainder(-1, 1) == 0
  {
    Decompose(1, if a == 1 then 1 else 0, if a == 1 then 0 else 1, a);
    Decompose(a, 1, 0, a);
  }

  // ------------------------------------------------------------ equal or of equal length

  lemma {:induction false} SameCopies(x: seq<Entry>, y: seq<Entry>, n: nat, d: int, e: int)
    requires |x| == |y| && n >= 1 && Copies(x, n, d, e) == Copies(y, n, d, e)
    ensures x == y
  {
    var cx, cy := Copies(x, n, d, e), Copies(y, n, d, e);
    assert cx[..|x|] == Shift(x, d) && cy[..|y|] == Shift(y, d);
    SameShift(x, y, d);
  }

  lemma SameShift(x: seq<Entry>, y: seq<Entry>, d: int)
    ensures Shift(x, d) == Shift(y, d) <==> x == y
  {
    if Shift(x, d) == Shift(y, d) {
      assert |x| == |y|;
      forall i | 0 <= i < |x|
        ensures x[i] == y[i]
      {
        assert Shift(x, d)[i] == Shift(y, d)[i];
      }
    }
  }

  lemma {:induction false} CopiesLengths(x: seq<Entry>, y: seq<Entry>, n: nat, d: int, e: int)
    requires |x| == |y|
    ensures |Copies(x, n, d, e)| == |Copies(y, n, d, e)|
    decreases n
  {
    if n > 0 {
      CopiesLengths(x, y, n - 1, d + e, e);
    }
  }

  lemma {:induction false} AtEmpty(m: seq<Entry>, xs: seq<int>, e: int)
    ensures At(m, xs, e) == [] <==> m == [] || xs == []
  {
    if xs != [] {
      AtEmpty(m, xs[1..], e);
    }
  }

  lemma GridEmpty(xs: seq<int>, ys: seq<int>, p: int)
    ensures Grid(xs, ys, p) == [] <==> xs == [] || ys == []
  {
    if ys != [] {
      GridEmpty(xs, ys[1..], p);
    }
  }

  lemma OneMoreEmpty(subs: seq<nat>, orderC: bool, k: nat)
    requires k < |subs|
    ensures NoneEmpty(subs, orderC, k + 1) <==> NoneEmpty(subs, orderC, k) && subs[Axis(orderC, |subs|, k)] >= 1
  {
  }

  /** The box is empty exactly when one of its dimensions is. */
  lemma {:induction false} BoxEmpty(sizes: seq<nat>, subs: seq<nat>, lists: seq<seq<int>>, orderC: bool, k: nat)
    requires k <= |sizes| == |subs| && lists == Ranges(Zeros(|subs|), subs)
    ensures Nest(sizes, lists, orderC, k) != [] <==> NoneEmpty(subs, orderC, k)
  {
    if k > 0 {
      var a := Axis(orderC, |sizes|, k - 1);
      BoxEmpty(sizes, subs, lists, orderC, k - 1);
      GridEmpty(Nest(sizes, lists, orderC, k - 1), lists[a], Inner(sizes, orderC, k - 1));
      assert |lists[a]| == subs[a];
      OneMoreEmpty(subs, orderC, k - 1);
    }
  }

  // --------------------------------------------------------------------- the constructor

  /** The `k` innermost dimensions of the box, as far as strides are read right. */
  ghost predicate BuiltTo(sizes: seq<nat>, subs: seq<nat>, orderC: bool, elem: Datatype, k: nat, lists: seq<seq<int>>, last: Datatype)
    requires 2 <= k <= |sizes| && Fitting(sizes, subs) && lists == Ranges(Zeros(|subs|), subs)
  {
    var part := At(elem.entries, Nest(sizes, lists, orderC, k), Extent(elem));
    && |last.entries| == |part|
    && (last.entries == part <==> !Derails(sizes, subs, orderC, elem, k))
    && (Extent(elem) == -1 && Inner(sizes, orderC, k) == 1 && NoneEmpty(subs, orderC, k) ==> Wrapped(elem, last))
  }

  /** The vector over the two innermost dimensions: its stride is never misread. */
  method Innermost2(sizes: seq<nat>, subs: seq<nat>, orderC: bool, elem: Datatype, ghost lists: seq<seq<int>>) returns (r: Datatype)
    requires 2 <= |sizes| && Fitting(sizes, subs) && Bounded(elem) && lists == Ranges(Zeros(|subs|), subs)
    ensures r.entries == At(elem.entries, Nest(sizes, lists, orderC, 2), Extent(elem))
    ensures BuiltTo(sizes, subs, orderC, elem, 2, lists, r)
  {
    var i, i', e := Axis(orderC, |sizes|, 0), Axis(orderC, |sizes|, 1), Extent(elem);
    r := TypeConstructors.CreateVector(subs[i'], subs[i], sizes[i], elem);
    VectorReads(elem, subs[i'], subs[i], sizes[i]);
    Innermost(elem.entries, sizes, lists, subs[i], orderC, e);
    assert Inner(sizes, orderC, 1) == Inner(sizes, orderC, 0) * sizes[i] == sizes[i];
    OneMore(elem.entries, sizes, lists, subs[i'], orderC, 1, e);
    if e == -1 && Inner(sizes, orderC, 2) == 1 && NoneEmpty(subs, orderC, 2) {
      InnerOne(sizes, orderC, 2, 0);
      InnerOne(sizes, orderC, 2, 1);
      WrapOnce(elem, elem);
    }
  }

  lemma VectorReads(elem: Datatype, count: nat, blocklength: nat, size: nat)
    requires blocklength <= size
    ensures !TypeConstructors.Misread(elem, count, blocklength, Extent(elem) * size)
  {
    if Extent(elem) * size == -1 {
      VectorBounds.MinusOne(Extent(elem), size);
    }
  }

  /** A stride is misread at dimension `k` exactly when it derails the type. */
  lemma MisreadAt(sizes: seq<nat>, subs: seq<nat>, orderC: bool, elem: Datatype, k: nat, lists: seq<seq<int>>, last: Datatype, stride: int)
    requires 2 <= k < |sizes| && Fitting(sizes, subs) && lists == Ranges(Zeros(|subs|), subs)
    requires BuiltTo(sizes, subs, orderC, elem, k, lists, last) && !Derails(sizes, subs, orderC, elem, k)
    requires stride == Inner(sizes, orderC, k) * Extent(elem)
    ensures TypeConstructors.Misread(last, subs[Axis(orderC, |sizes|, k)], 1, stride) <==> Derails(sizes, subs, orderC, elem, k + 1)
  {
    var b := subs[Axis(orderC, |sizes|, k)];
    AtEmpty(elem.entries, Nest(sizes, lists, orderC, k), Extent(elem));
    BoxEmpty(sizes, subs, lists, orderC, k);
    if stride == -1 {
      VectorBounds.MinusOne(Extent(elem), Inner(sizes, orderC, k));
      if b >= 2 {
        assert ThinAt(sizes, subs, orderC, k);
      }
    }
    if Derails(sizes, subs, orderC, elem, k + 1) {
      assert NoneEmpty(subs, orderC, k);
      var i :| 2 <= i < k + 1 && ThinAt(sizes, subs, orderC, i);
      assert i == k;
    }
    OneMoreEmpty(subs, orderC, k);
  }

  /** Whether one more dimension derails the type. */
  lemma DerailsNext(sizes: seq<nat>, subs: seq<nat>, orderC: bool, elem: Datatype, k: nat, lists: seq<seq<int>>, last: Datatype, stride: int, b: nat)
    requires 2 <= k < |sizes| && Fitting(sizes, subs) && lists == Ranges(Zeros(|subs|), subs) && b == subs[Axis(orderC, |sizes|, k)]
    requires BuiltTo(sizes, subs, orderC, elem, k, lists, last) && stride == Inner(sizes, orderC, k) * Extent(elem)
    ensures var misread, next := TypeConstructors.Misread(last, b, 1, stride), Derails(sizes, subs, orderC, elem, k + 1);
            if Derails(sizes, subs, orderC, elem, k) then !misread && (next <==> b >= 1) else next <==> misread
  {
    if Derails(sizes, subs, orderC, elem, k) {
      StaysDerailed(sizes, subs, orderC, elem, k, last, stride);
    } else {
      MisreadAt(sizes, subs, orderC, elem, k, lists, last, stride);
    }
  }

  /** The hvector over one more dimension. */
  lemma OneStep(sizes: seq<nat>, subs: seq<nat>, orderC: bool, elem: Datatype, k: nat, lists: seq<seq<int>>, last: Datatype, r: Datatype,
                stride: int, b: nat, misread: bool, part: seq<Entry>)
    requires 2 <= k < |sizes| && Fitting(sizes, subs) && lists == Ranges(Zeros(|subs|), subs) && b == subs[Axis(orderC, |sizes|, k)]
    requires BuiltTo(sizes, subs, orderC, elem, k, lists, last) && stride == Inner(sizes, orderC, k) * Extent(elem)
    requires misread == TypeConstructors.Misread(last, b, 1, stride)
    requires (r.entries == Copies(last.entries, b, 0, stride) <==> !misread) && |r.entries| == |Copies(last.entries, b, 0, stride)|
    requires part == At(elem.entries, Nest(sizes, lists, orderC, k + 1), Extent(elem))
    ensures |r.entries| == |part| && (r.entries == part <==> !Derails(sizes, subs, orderC, elem, k + 1))
  {
    var before := At(elem.entries, Nest(sizes, lists, orderC, k), Extent(elem));
    assert part == Copies(before, b, 0, stride) by {
      OneMore(elem.entries, sizes, lists, b, orderC, k, Extent(elem));
    }
    DerailsNext(sizes, subs, orderC, elem, k, lists, last, stride, b);
    CopyStep(last.entries, before, r.entries, b, stride, Derails(sizes, subs, orderC, elem, k), misread,
             Derails(sizes, subs, orderC, elem, k + 1));
  }

  /** Copies of the right rows are right unless the stride is misread; copies of wrong ones are wrong unless there are none. */
  lemma CopyStep(x: seq<Entry>, part: seq<Entry>, r: seq<Entry>, b: nat, stride: int, bad: bool, misread: bool, next: bool)
    requires |x| == |part| && (x == part <==> !bad)
    requires (r == Copies(x, b, 0, stride) <==> !misread) && |r| == |Copies(x, b, 0, stride)|
    requires if bad then !misread && (next <==> b >= 1) else next <==> misread
    ensures |r| == |Copies(part, b, 0, stride)| && (r == Copies(part, b, 0, stride) <==> !next)
  {
    CopiesLengths(x, part, b, 0, stride);
    if bad && b >= 1 {
      DifferentCopies(x, part, b, stride);
    }
  }

  lemma DifferentCopies(x: seq<Entry>, y: seq<Entry>, n: nat, e: int)
    requires |x| == |y| && n >= 1 && x != y
    ensures Copies(x, n, 0, e) != Copies(y, n, 0, e)
  {
    if Copies(x, n, 0, e) == Copies(y, n, 0, e) {
      SameCopies(x, y, n, 0, e);
    }
  }

  lemma StaysDerailed(sizes: seq<nat>, subs: seq<nat>, orderC: bool, elem: Datatype, k: nat, last: Datatype, stride: int)
    requires 2 <= k < |sizes| && Fitting(sizes, subs) && Derails(sizes, subs, orderC, elem, k)
    requires stride == Inner(sizes, orderC, k) * Extent(elem)
    ensures var b := subs[Axis(orderC, |sizes|, k)];
            !TypeConstructors.Misread(last, b, 1, stride) && (Derails(sizes, subs, orderC, elem, k + 1) <==> b >= 1)
  {
    NotThinTwice(sizes, subs, orderC, k);
    var i :| 2 <= i < k && ThinAt(sizes, subs, orderC, i);
    OneMoreEmpty(subs, orderC, k);
  }

  /** The type stays wrapped while the dimensions have size 1. */
  lemma StaysWrapped(sizes: seq<nat>, subs: seq<nat>, orderC: bool, elem: Datatype, k: nat, last: Datatype, r: Datatype)
    requires 2 <= k < |sizes| && Fitting(sizes, subs)
    requires Extent(elem) == -1 && Inner(sizes, orderC, k) == 1 && NoneEmpty(subs, orderC, k) ==> Wrapped(elem, last)
    requires subs[Axis(orderC, |sizes|, k)] == 1 ==> r == Add(EMPTY, last, 1, 0, Extent(last))
    ensures Extent(elem) == -1 && Inner(sizes, orderC, k + 1) == 1 && NoneEmpty(subs, orderC, k + 1) ==> Wrapped(elem, r)
  {
    if Extent(elem) == -1 && Inner(sizes, orderC, k + 1) == 1 && NoneEmpty(subs, orderC, k + 1) {
      InnerOne(sizes, orderC, k + 1, k);
      assert NoneEmpty(subs, orderC, k);
      assert subs[Axis(orderC, |sizes|, k)] == 1;
      WrapOnce(elem, last);
    }
  }

  /** The hvector over one more dimension. */
  method AddDimension(sizes: seq<nat>, subs: seq<nat>, orderC: bool, k: nat, size: int, elem: Datatype, last: Datatype,
                      ghost lists: seq<seq<int>>)
    returns (r: Datatype)
    requires 2 <= k < |sizes| && Fitting(sizes, subs) && lists == Ranges(Zeros(|subs|), subs) && size == Inner(sizes, orderC, k)
    requires BuiltTo(sizes, subs, orderC, elem, k, lists, last)
    ensures BuiltTo(sizes, subs, orderC, elem, k + 1, lists, r)
  {
    var b, stride := subs[Axis(orderC, |sizes|, k)], size * Extent(elem);
    r := TypeConstructors.CreateHvector(b, 1, stride, last);
    TypeConstructors.RowsOfOne(last, b, stride);
    OneStep(sizes, subs, orderC, elem, k, lists, last, r, stride, b, TypeConstructors.Misread(last, b, 1, stride),
            At(elem.entries, Nest(sizes, lists, orderC, k + 1), Extent(elem)));
    StaysWrapped(sizes, subs, orderC, elem, k, last, r);
  }

  /** The loop over the outer dimensions, and the size and displacement it adds up. */
  method Outer(sizes: seq<nat>, subs: seq<nat>, starts: seq<int>, orderC: bool, elem: Datatype, ghost lists: seq<seq<int>>)
    returns (r: Datatype, size: int, displ: int)
    requires 2 <= |sizes| == |starts| && Fitting(sizes, subs) && Bounded(elem) && lists == Ranges(Zeros(|subs|), subs)
    ensures r.entries == At(elem.entries, Nest(sizes, lists, orderC, |sizes|), Extent(elem))
            <==> !Derails(sizes, subs, orderC, elem, |sizes|)
    ensures size == Inner(sizes, orderC, |sizes|) && displ == Origin(sizes, starts, orderC, |sizes|)
  {
    r := Innermost2(sizes, subs, orderC, elem, lists);
    size, displ := FirstTwo(sizes, starts, orderC);
    var k := 2;
    while k < |sizes|
      invariant 2 <= k <= |sizes| && size == Inner(sizes, orderC, k) && displ == Origin(sizes, starts, orderC, k)
      invariant BuiltTo(sizes, subs, orderC, elem, k, lists, r)
    {
      var i := Axis(orderC, |sizes|, k);
      r := AddDimension(sizes, subs, orderC, k, size, elem, r, lists);
      displ := displ + size * starts[i];
      size := size * sizes[i];
      k := k + 1;
    }
  }

  method FirstTwo(sizes: seq<nat>, starts: seq<int>, orderC: bool) returns (size: int, displ: int)
    requires 2 <= |sizes| == |starts|
    ensures size == Inner(sizes, orderC, 2) && displ == Origin(sizes, starts, orderC, 2)
  {
    var i, i' := Axis(orderC, |sizes|, 0), Axis(orderC, |sizes|, 1);
    size := sizes[i] * sizes[i'];
    displ := starts[i] + starts[i'] * sizes[i];
    assert Inner(sizes, orderC, 1) == Inner(sizes, orderC, 0) * sizes[i] == sizes[i];
    assert Origin(sizes, starts, orderC, 1) == Origin(sizes, starts, orderC, 0) + starts[i] * 1 == starts[i];
  }

  /** ompi_datatype_create_subarray: the element type at exactly the elements of the
      box, in the order of the array, unless a stride of -1 byte is misread. */
  method Create(sizes: seq<nat>, subs: seq<nat>, starts: seq<int>, orderC: bool, elem: Datatype) returns (r: Datatype)
    requires |sizes| == |starts| && Fitting(sizes, subs) && Bounded(elem)
    ensures |sizes| == 0 ==> r == NULL_COPY
    ensures |sizes| > 0 ==>
              && (r.entries == At(elem.entries, Box(sizes, subs, starts, orderC), Extent(elem))
                  <==> !Derails(sizes, subs, orderC, elem, |sizes|))
              && r.lb == 0 && r.ub == Extent(elem) * Inner(sizes, orderC, |sizes|)
  {
    if |sizes| == 0 {
      return NULL_COPY;
    }
    ghost var lists := Ranges(Zeros(|subs|), subs);
    var last, size, displ := AtZero(sizes, subs, starts, orderC, elem, lists);
    Moved(elem, sizes, subs, starts, orderC, last, displ);
    AddOnce(last, displ * Extent(elem), size * Extent(elem));
    r := Add(EMPTY, last, 1, displ * Extent(elem), size * Extent(elem));
    r := Resize(r, 0, size * Extent(elem));
  }

  /** The box before it is moved to its start, with the size of the array and the displacement. */
  method AtZero(sizes: seq<nat>, subs: seq<nat>, starts: seq<int>, orderC: bool, elem: Datatype, ghost lists: seq<seq<int>>)
    returns (last: Datatype, size: int, displ: int)
    requires 1 <= |sizes| == |starts| && Fitting(sizes, subs) && Bounded(elem) && lists == Ranges(Zeros(|subs|), subs)
    ensures last.entries == At(elem.entries, Nest(sizes, lists, orderC, |sizes|), Extent(elem))
            <==> !Derails(sizes, subs, orderC, elem, |sizes|)
    ensures size == Inner(sizes, orderC, |sizes|) && displ == Origin(sizes, starts, orderC, |sizes|)
  {
    if |sizes| < 2 {
      last := TypeConstructors.CreateContiguous(subs[0], elem);
      size, displ := sizes[0], starts[0];
      OnlyOne(sizes, starts, orderC);
      Innermost(elem.entries, sizes, lists, subs[0], orderC, Extent(elem));
    } else {
      last, size, displ := Outer(sizes, subs, starts, orderC, elem, lists);
    }
  }

  /** Moving the content is right exactly when the content is. */
  lemma Moved(elem: Datatype, sizes: seq<nat>, subs: seq<nat>, starts: seq<int>, orderC: bool, last: Datatype, displ: int)
    requires |sizes| == |subs| == |starts| && displ == Origin(sizes, starts, orderC, |sizes|)
    ensures Shift(last.entries, displ * Extent(elem)) == At(elem.entries, Box(sizes, subs, starts, orderC), Extent(elem))
            <==> last.entries == At(elem.entries, Nest(sizes, Ranges(Zeros(|subs|), subs), orderC, |sizes|), Extent(elem))
  {
    var nest := Nest(sizes, Ranges(Zeros(|subs|), subs), orderC, |sizes|);
    BoxAtOrigin(sizes, subs, starts, orderC);
    AtShift(elem.entries, nest, Extent(elem), displ);
    SameShift(last.entries, At(elem.entries, nest, Extent(elem)), displ * Extent(elem));
  }

  lemma OnlyOne(sizes: seq<nat>, starts: seq<int>, orderC: bool)
    requires 1 == |sizes| == |starts|
    ensures Inner(sizes, orderC, 1) == sizes[0] && Origin(sizes, starts, orderC, 1) == starts[0]
  {
    assert Inner(sizes, orderC, 0) == 1 && Origin(sizes, starts, orderC, 0) == 0;
  }
}
