/** The bounds of indexed and struct types (ompi/datatype/ompi_datatype_create_indexed.c and
    ompi_datatype_create_struct.c), said of the places of their elements: merging or not, the lower
    bound is exact, and the upper one covers every element and keeps the extent aligned. */
module BlockBounds {
  import opened Basics
  import opened Typemap
  import opened Merging
  import opened StructMerging
  import opened VectorBounds

  // ------------------------------------------------------------------ what is meant

  /** `n` copies of `t`, the first at `d` and each one extent after the last. */
  datatype Piece = Piece(t: Datatype, n: nat, d: int)

  /** Where element `j` starts. */
  function Start(p: Piece, j: nat): int {
    p.d + j * Extent(p.t)
  }

  /** Pieces whose first element the machine can address. */
  predicate Reached(p: Piece) {
    p.n > 0 ==> p.d + p.t.lb <= LONG_MAX && p.d + p.t.ub >= LONG_MIN
  }

  /** Whether a piece has a say in a bound: once one has a marker, only those with markers do. */
  predicate SaysLb(p: Piece, marked: bool) {
    p.n > 0 && p.t.userLb == marked
  }

  predicate SaysUb(p: Piece, marked: bool) {
    p.n > 0 && p.t.userUb == marked
  }

  ghost predicate Occurs(ps: seq<Piece>) {
    exists i :: 0 <= i < |ps| && ps[i].n > 0
  }

  /** `r` has the bounds of the elements of the pieces. A marked upper bound is exact; one without
      markers covers the elements and makes the extent a multiple of the greatest alignment. */
  ghost predicate Spans(r: Datatype, ps: seq<Piece>) {
    && (r.userLb <==> exists i :: 0 <= i < |ps| && SaysLb(ps[i], true))
    && (forall i, j: nat {:trigger Start(ps[i], j)} ::
          0 <= i < |ps| && SaysLb(ps[i], r.userLb) && j < ps[i].n ==> r.lb <= Start(ps[i], j) + ps[i].t.lb)
    && (exists i, j: nat {:trigger Start(ps[i], j)} ::
          0 <= i < |ps| && SaysLb(ps[i], r.userLb) && j < ps[i].n && r.lb == Start(ps[i], j) + ps[i].t.lb)
    && (r.userUb <==> exists i :: 0 <= i < |ps| && SaysUb(ps[i], true))
    && (forall i, j: nat {:trigger Start(ps[i], j)} ::
          0 <= i < |ps| && SaysUb(ps[i], r.userUb) && j < ps[i].n ==> Start(ps[i], j) + ps[i].t.ub <= r.ub)
    && (r.userUb ==> exists i, j: nat {:trigger Start(ps[i], j)} ::
          0 <= i < |ps| && SaysUb(ps[i], true) && j < ps[i].n && r.ub == Start(ps[i], j) + ps[i].t.ub)
    && Aligned(ps, r.align)
    && (!r.userUb ==> Extent(r) % r.align == 0)
  }

  /** The greatest alignment, at least 1. */
  ghost predicate Aligned(ps: seq<Piece>, a: nat) {
    && a >= 1
    && (forall i :: 0 <= i < |ps| && ps[i].n > 0 ==> ps[i].t.align <= a)
    && (a == 1 || exists i :: 0 <= i < |ps| && ps[i].n > 0 && ps[i].t.align == a)
  }

  // ------------------------------------------------------------------ bounds piece by piece

  function Ends(p: Piece): (int, int) {
    BoundsOfCopies(p.t, p.n, p.d, Extent(p.t))
  }

  ghost predicate LowerOf(ps: seq<Piece>, marked: bool, x: int) {
    && (marked <==> exists i :: 0 <= i < |ps| && SaysLb(ps[i], true))
    && (forall i :: 0 <= i < |ps| && SaysLb(ps[i], marked) ==> x <= Ends(ps[i]).0)
    && if Occurs(ps) then exists i :: 0 <= i < |ps| && SaysLb(ps[i], marked) && x == Ends(ps[i]).0 else x == LONG_MAX
  }

  ghost predicate UpperOf(ps: seq<Piece>, marked: bool, x: int) {
    && (marked <==> exists i :: 0 <= i < |ps| && SaysUb(ps[i], true))
    && (forall i :: 0 <= i < |ps| && SaysUb(ps[i], marked) ==> Ends(ps[i]).1 <= x)
    && (marked ==> exists i :: 0 <= i < |ps| && SaysUb(ps[i], true) && x == Ends(ps[i]).1)
  }

  lemma FirstEnds(p: Piece)
    requires Reached(p) && p.n > 0
    ensures Ends(p).0 <= LONG_MAX && Ends(p).1 >= LONG_MIN
  {
  }

  lemma LowerStep(ps: seq<Piece>, x: Datatype, p: Piece)
    requires LowerOf(ps, x.userLb, x.lb) && Reached(p) && p.n > 0
    ensures LowerOf(ps + [p], x.userLb || p.t.userLb, JoinLb(x, p.t, Ends(p).0))
  {
    FirstEnds(p);
    var ps' := ps + [p];
    assert ps'[|ps|] == p && forall i :: 0 <= i < |ps| ==> ps'[i] == ps[i];
  }

  lemma UpperStep(ps: seq<Piece>, x: Datatype, p: Piece)
    requires UpperOf(ps, x.userUb, x.ub) && p.n > 0
    ensures UpperOf(ps + [p], x.userUb || p.t.userUb, JoinUb(x, p.t, Ends(p).1))
  {
    var ps' := ps + [p];
    assert ps'[|ps|] == p && forall i :: 0 <= i < |ps| ==> ps'[i] == ps[i];
  }

  lemma AlignedStep(ps: seq<Piece>, x: Datatype, p: Piece)
    requires Aligned(ps, x.align) && p.n > 0
    ensures Aligned(ps + [p], JoinAlign(x, p.t))
  {
    var ps' := ps + [p];
    assert ps'[|ps|] == p && forall i :: 0 <= i < |ps| ==> ps'[i] == ps[i];
  }

  // ------------------------------------------------------------------ types under construction

  ghost predicate Covers(x: Datatype, ps: seq<Piece>) {
    LowerOf(ps, x.userLb, x.lb) && UpperOf(ps, x.userUb, x.ub) && Aligned(ps, x.align)
  }

  /** The bounds with one more piece, before padding. */
  function Joined(x: Datatype, p: Piece): Datatype {
    x.(lb := JoinLb(x, p.t, Ends(p).0), ub := JoinUb(x, p.t, Ends(p).1),
       userLb := x.userLb || p.t.userLb, userUb := x.userUb || p.t.userUb, align := JoinAlign(x, p.t))
  }

  lemma CoversStep(x: Datatype, ps: seq<Piece>, p: Piece)
    requires Covers(x, ps) && Reached(p) && p.n > 0
    ensures Covers(Joined(x, p), ps + [p]) && Occurs(ps + [p])
  {
    LowerStep(ps, x, p);
    UpperStep(ps, x, p);
    AlignedStep(ps, x, p);
    assert (ps + [p])[|ps|] == p;
  }

  /** A type with all pieces in it. */
  ghost predicate Held(x: Datatype, ps: seq<Piece>) {
    Covers(x, ps) && x.align > 0 && (Occurs(ps) && !x.userUb ==> Extent(x) % x.align == 0)
  }

  /** A type with a run of `n` elements at `d` still to be added. */
  ghost predicate Open(pdt: Datatype, t: Datatype, n: nat, d: int, ps: seq<Piece>) {
    if n == 0 then Held(pdt, ps) else Occurs(ps) && Covers(Joined(pdt, Piece(t, n, d)), ps)
  }

  lemma Nothing(t: Datatype, d: int)
    ensures Held(EMPTY, []) && Open(EMPTY, t, 0, d, [])
  {
  }

  lemma EmptyPiece(x: Datatype, ps: seq<Piece>, p: Piece)
    requires Held(x, ps) && p.n == 0
    ensures Held(x, ps + [p])
  {
    var ps' := ps + [p];
    assert ps'[|ps|] == p && forall i :: 0 <= i < |ps| ==> ps'[i] == ps[i];
  }

  lemma EmptyOpen(pdt: Datatype, t: Datatype, n: nat, d: int, ps: seq<Piece>, p: Piece)
    requires Open(pdt, t, n, d, ps) && p.n == 0
    ensures Open(pdt, t, n, d, ps + [p])
  {
    if n == 0 {
      EmptyPiece(pdt, ps, p);
    } else {
      var ps' := ps + [p];
      assert ps'[|ps|] == p && forall i :: 0 <= i < |ps| ==> ps'[i] == ps[i];
    }
  }

  lemma Higher(ps: seq<Piece>, x: int, y: int)
    requires UpperOf(ps, false, x) && x <= y
    ensures UpperOf(ps, false, y)
  {
  }

  lemma PaddedLevel(lb: int, ub: int, a: nat)
    requires a >= 1
    ensures ub <= Padded(lb, ub, a, false) && (Padded(lb, ub, a, false) - lb) % a == 0
  {
    PaddedIs(lb, ub, a);
    RoundedIs(ub - lb, a);
    Decompose(a, 1, 0, a);
    ModSum(ub - lb + (lb - ub) % a, a, a);
  }

  /** Adding the run. */
  lemma Close(pdt: Datatype, t: Datatype, n: nat, d: int, ps: seq<Piece>)
    requires pdt.align > 0 && Open(pdt, t, n, d, ps)
    ensures Held(Add(pdt, t, n, d, Extent(t)), ps)
  {
    if n > 0 {
      var b := BoundsOfCopies(t, n, d, Extent(t));
      var lb, ub, a := JoinLb(pdt, t, b.0), JoinUb(pdt, t, b.1), JoinAlign(pdt, t);
      PaddedLevel(lb, ub, a);
      if !(pdt.userUb || t.userUb) {
        Higher(ps, ub, Padded(lb, ub, a, false));
      }
    }
  }

  /** A new run. */
  lemma Begin(x: Datatype, t: Datatype, n: nat, d: int, ps: seq<Piece>)
    requires Held(x, ps) && Reached(Piece(t, n, d))
    ensures Open(x, t, n, d, ps + [Piece(t, n, d)])
  {
    var p := Piece(t, n, d);
    if n == 0 {
      EmptyPiece(x, ps, p);
    } else {
      CoversStep(x, ps, p);
    }
  }

  lemma JoinedTwice(pdt: Datatype, t: Datatype, n: nat, d: int, more: nat, d': int)
    requires n >= 1 && more >= 1 && d' == d + n * Extent(t)
    ensures Joined(Joined(pdt, Piece(t, n, d)), Piece(t, more, d')) == Joined(pdt, Piece(t, n + more, d))
  {
    BoundsSplit(t, n, more, d, Extent(t));
  }

  /** A longer run. */
  lemma Lengthen(pdt: Datatype, t: Datatype, n: nat, d: int, more: nat, d': int, ps: seq<Piece>)
    requires Open(pdt, t, n, d, ps) && Reached(Piece(t, more, d')) && n >= 1 && more >= 1 && d' == d + n * Extent(t)
    ensures Open(pdt, t, n + more, d, ps + [Piece(t, more, d')])
  {
    CoversStep(Joined(pdt, Piece(t, n, d)), ps, Piece(t, more, d'));
    JoinedTwice(pdt, t, n, d, more, d');
  }

  // ------------------------------------------------------------------ the elements

  /** The ends of a piece are those of its outermost elements. */
  lemma EndsAre(p: Piece, j: nat)
    requires j < p.n
    ensures Ends(p).0 <= Start(p, j) + p.t.lb && Start(p, j) + p.t.ub <= Ends(p).1
    ensures Ends(p).0 == Start(p, if Extent(p.t) >= 0 then 0 else p.n - 1) + p.t.lb
    ensures Ends(p).1 == Start(p, if Extent(p.t) >= 0 then p.n - 1 else 0) + p.t.ub
  {
    Between(p.n, j, Extent(p.t));
    var e := Extent(p.t);
    if e >= 0 {
      ProductNonNegative(p.n - 1, e);
    } else {
      ProductNonNegative(p.n - 1, -e);
    }
  }

  lemma HeldSpans(r: Datatype, ps: seq<Piece>)
    requires Held(r, ps) && Occurs(ps)
    ensures Spans(r, ps)
  {
    forall i, j: nat | 0 <= i < |ps| && j < ps[i].n
      ensures Ends(ps[i]).0 <= Start(ps[i], j) + ps[i].t.lb && Start(ps[i], j) + ps[i].t.ub <= Ends(ps[i]).1
    {
      EndsAre(ps[i], j);
    }
    var i :| 0 <= i < |ps| && SaysLb(ps[i], r.userLb) && r.lb == Ends(ps[i]).0;
    EndsAre(ps[i], 0);
    var first: nat := if Extent(ps[i].t) >= 0 then 0 else ps[i].n - 1;
    assert r.lb == Start(ps[i], first) + ps[i].t.lb;
    if r.userUb {
      var k :| 0 <= k < |ps| && SaysUb(ps[k], true) && r.ub == Ends(ps[k]).1;
      EndsAre(ps[k], 0);
      var last: nat := if Extent(ps[k].t) >= 0 then ps[k].n - 1 else 0;
      assert r.ub == Start(ps[k], last) + ps[k].t.ub;
    }
  }

  // ------------------------------------------------------------------ indexed types

  function BlockPieces(elem: Datatype, lengths: seq<nat>, disps: seq<int>, unit: int, n: nat): (ps: seq<Piece>)
    requires n <= |lengths| == |disps|
    ensures |ps| == n && forall i :: 0 <= i < n ==> ps[i] == Piece(elem, lengths[i], disps[i] * unit)
  {
    if n == 0 then [] else BlockPieces(elem, lengths, disps, unit, n - 1) + [Piece(elem, lengths[n - 1], disps[n - 1] * unit)]
  }

  predicate AllReached(ps: seq<Piece>) {
    forall i :: 0 <= i < |ps| ==> Reached(ps[i])
  }

  lemma ExtendOpen(elem: Datatype, r: Run, length: nat, disp: int, unit: int, step: int, ps: seq<Piece>)
    requires r.pdt.align > 0 && unit * step == Extent(elem) && Open(r.pdt, elem, r.length, r.disp * unit, ps)
    requires r.length == 0 ==> r.pdt == EMPTY
    requires Reached(Piece(elem, length, disp * unit))
    ensures var r' := Extend(elem, r, length, disp, unit, step);
            Open(r'.pdt, elem, r'.length, r'.disp * unit, ps + [Piece(elem, length, disp * unit)])
  {
    var p := Piece(elem, length, disp * unit);
    if length == 0 {
      EmptyOpen(r.pdt, elem, r.length, r.disp * unit, ps, p);
    } else if r.length == 0 {
      Begin(r.pdt, elem, length, disp * unit, ps);
    } else if r.disp + r.length * step == disp {
      NextStart(r.disp, r.length, unit, step, Extent(elem));
      Lengthen(r.pdt, elem, r.length, r.disp * unit, length, disp * unit, ps);
    } else {
      Close(r.pdt, elem, r.length, r.disp * unit, ps);
      Begin(Flush(elem, r, unit), elem, length, disp * unit, ps);
    }
  }

  lemma {:induction false} RunsOpen(elem: Datatype, lengths: seq<nat>, disps: seq<int>, unit: int, step: int, n: nat)
    requires n <= |lengths| == |disps| && unit * step == Extent(elem) && AllReached(BlockPieces(elem, lengths, disps, unit, n))
    ensures var r := Runs(elem, lengths, disps, unit, step, n);
            && (r.length == 0 ==> r.pdt == EMPTY)
            && Open(r.pdt, elem, r.length, r.disp * unit, BlockPieces(elem, lengths, disps, unit, n))
  {
    if n == 0 {
      Nothing(elem, 0 * unit);
    } else {
      var ps := BlockPieces(elem, lengths, disps, unit, n);
      assert AllReached(BlockPieces(elem, lengths, disps, unit, n - 1)) by {
        assert forall i :: 0 <= i < n - 1 ==> BlockPieces(elem, lengths, disps, unit, n - 1)[i] == ps[i];
      }
      assert Reached(ps[n - 1]);
      RunsOpen(elem, lengths, disps, unit, step, n - 1);
      ExtendOpen(elem, Runs(elem, lengths, disps, unit, step, n - 1), lengths[n - 1], disps[n - 1], unit, step,
                 BlockPieces(elem, lengths, disps, unit, n - 1));
    }
  }

  /** Merged blocks have the bounds of their elements. */
  lemma MergedSpans(elem: Datatype, lengths: seq<nat>, disps: seq<int>, unit: int, step: int)
    requires |lengths| == |disps| && unit * step == Extent(elem) && !AllZero(lengths)
    requires AllReached(BlockPieces(elem, lengths, disps, unit, |lengths|))
    ensures Spans(Merged(elem, lengths, disps, unit, step, |lengths|), BlockPieces(elem, lengths, disps, unit, |lengths|))
  {
    var r, ps := Runs(elem, lengths, disps, unit, step, |lengths|), BlockPieces(elem, lengths, disps, unit, |lengths|);
    RunsOpen(elem, lengths, disps, unit, step, |lengths|);
    Close(r.pdt, elem, r.length, r.disp * unit, ps);
    var i :| 0 <= i < |lengths| && lengths[i] != 0;
    assert ps[i].n > 0;
    HeldSpans(Flush(elem, r, unit), ps);
  }

  /** The greatest upper bound of an element. */
  ghost predicate TopOf(ps: seq<Piece>, high: int) {
    && (forall i, j: nat {:trigger Start(ps[i], j)} :: 0 <= i < |ps| && j < ps[i].n ==> Start(ps[i], j) + ps[i].t.ub <= high)
    && exists i, j: nat {:trigger Start(ps[i], j)} :: 0 <= i < |ps| && j < ps[i].n && high == Start(ps[i], j) + ps[i].t.ub
  }

  lemma TopStep(ps: seq<Piece>, high: int, p: Piece)
    requires p.n > 0 && Extent(p.t) >= 0
    ensures TopOf(ps, high) ==> TopOf(ps + [p], Larger(high, Ends(p).1))
    ensures !Occurs(ps) ==> TopOf(ps + [p], Ends(p).1)
  {
    var ps' := ps + [p];
    assert ps'[|ps|] == p && forall i :: 0 <= i < |ps| ==> ps'[i] == ps[i];
    forall j: nat | j < p.n
      ensures Start(p, j) + p.t.ub <= Ends(p).1
    {
      EndsAre(p, j);
    }
    EndsAre(p, 0);
    assert Start(ps'[|ps|], p.n - 1) + p.t.ub == Ends(p).1;
    if TopOf(ps, high) {
      var i, j: nat :| 0 <= i < |ps| && j < ps[i].n && high == Start(ps[i], j) + ps[i].t.ub;
      assert Start(ps'[i], j) + ps'[i].t.ub == high;
    }
  }

  /** What a type is while nothing lies below its first block. */
  ghost predicate Upward(x: Datatype, elem: Datatype, ps: seq<Piece>, first: int) {
    if !Occurs(ps) then x == EMPTY
    else
      && x.lb == first + elem.lb && x.userLb == elem.userLb && !x.userUb && x.align == Alignment(elem)
      && exists high :: TopOf(ps, high) && x.lb <= high && x.ub == Padded(x.lb, high, x.align, false)
  }

  lemma UpwardStep(x: Datatype, elem: Datatype, ps: seq<Piece>, n: nat, d: int, first: int)
    requires x.align > 0 && Upward(x, elem, ps, first) && n > 0 && !elem.userUb && Extent(elem) >= 0
    requires Reached(Piece(elem, n, d)) && first <= d && (!Occurs(ps) ==> first == d)
    ensures Upward(Add(x, elem, n, d, Extent(elem)), elem, ps + [Piece(elem, n, d)], first)
  {
    var p := Piece(elem, n, d);
    assert Occurs(ps + [p]) by {
      assert (ps + [p])[|ps|] == p;
    }
    FirstEnds(p);
    EndsAre(p, 0);
    BoundsInOrder(elem, n, d);
    if Occurs(ps) {
      var high :| TopOf(ps, high) && x.lb <= high && x.ub == Padded(x.lb, high, x.align, false);
      TopStep(ps, high, p);
      PaddedAbsorbs(x.lb, high, Ends(p).1, x.align);
    } else {
      TopStep(ps, 0, p);
    }
  }

  /** No block starts below `first`, where the first that is not empty starts. */
  ghost predicate FromBelow(lengths: seq<nat>, disps: seq<int>, unit: int, first: int)
    requires |lengths| == |disps|
  {
    && (forall i :: 0 <= i < |lengths| && lengths[i] > 0 ==> first <= disps[i] * unit)
    && (forall i: nat {:trigger First(lengths, i)} :: First(lengths, i) ==> disps[i] * unit == first)
  }

  lemma {:induction false} SeparateUpward(elem: Datatype, lengths: seq<nat>, disps: seq<int>, unit: int, n: nat, first: int)
    requires n <= |lengths| == |disps| && FromBelow(lengths, disps, unit, first) && !elem.userUb && Extent(elem) >= 0
    requires AllReached(BlockPieces(elem, lengths, disps, unit, |lengths|))
    ensures Upward(Separate(elem, lengths, disps, unit, n), elem, BlockPieces(elem, lengths, disps, unit, n), first)
  {
    if n > 0 {
      var ps, d := BlockPieces(elem, lengths, disps, unit, n - 1), disps[n - 1] * unit;
      var p := Piece(elem, lengths[n - 1], d);
      SeparateUpward(elem, lengths, disps, unit, n - 1, first);
      assert Reached(p) by {
        assert Reached(BlockPieces(elem, lengths, disps, unit, |lengths|)[n - 1]);
      }
      if lengths[n - 1] == 0 {
        UpwardEmpty(Separate(elem, lengths, disps, unit, n - 1), elem, ps, p, first);
      } else {
        if !Occurs(ps) {
          assert forall i :: 0 <= i < n - 1 ==> ps[i].n == lengths[i];
          assert First(lengths, n - 1);
        }
        UpwardStep(Separate(elem, lengths, disps, unit, n - 1), elem, ps, lengths[n - 1], d, first);
      }
    }
  }

  lemma UpwardEmpty(x: Datatype, elem: Datatype, ps: seq<Piece>, p: Piece, first: int)
    requires Upward(x, elem, ps, first) && p.n == 0
    ensures Upward(x, elem, ps + [p], first)
  {
    var ps' := ps + [p];
    assert ps'[|ps|] == p && forall i :: 0 <= i < |ps| ==> ps'[i] == ps[i];
    if Occurs(ps) {
      var high :| TopOf(ps, high) && x.lb <= high && x.ub == Padded(x.lb, high, x.align, false);
      var i, j: nat :| 0 <= i < |ps| && j < ps[i].n && high == Start(ps[i], j) + ps[i].t.ub;
      assert Start(ps'[i], j) + ps'[i].t.ub == high;
      assert TopOf(ps', high);
    }
  }

  /** Blocks of a type that is not backwards, none below the first: the upper bound is that of
      the elements, rounded up to the alignment. */
  lemma MergedRoundsUp(elem: Datatype, lengths: seq<nat>, disps: seq<int>, unit: int, step: int, first: int)
    requires |lengths| == |disps| && unit * step == Extent(elem) >= 0 && !AllZero(lengths) && !elem.userUb
    requires FromBelow(lengths, disps, unit, first) && AllReached(BlockPieces(elem, lengths, disps, unit, |lengths|))
    ensures var r := Merged(elem, lengths, disps, unit, step, |lengths|);
            && r.lb == first + elem.lb
            && exists high :: TopOf(BlockPieces(elem, lengths, disps, unit, |lengths|), high)
                              && r.ub == RoundUp(r.lb, high, Alignment(elem))
  {
    var ps := BlockPieces(elem, lengths, disps, unit, |lengths|);
    MergedIsSeparate(elem, lengths, disps, unit, step, |lengths|);
    SeparateUpward(elem, lengths, disps, unit, |lengths|, first);
    var i :| 0 <= i < |lengths| && lengths[i] != 0;
    assert ps[i].n > 0;
    var r := Separate(elem, lengths, disps, unit, |lengths|);
    var high :| TopOf(ps, high) && r.lb <= high && r.ub == Padded(r.lb, high, r.align, false);
    PaddedIs(r.lb, high, r.align);
  }

  // ------------------------------------------------------------------ struct types

  function MemberPieces(store: seq<Datatype>, a: Args, n: nat): (ps: seq<Piece>)
    requires ValidArgs(store, a) && n <= |a.types|
    ensures |ps| == n && forall i :: 0 <= i < n ==> ps[i] == Piece(store[a.types[i]], a.lengths[i], a.disps[i])
  {
    if n == 0 then []
    else MemberPieces(store, a, n - 1) + [Piece(store[a.types[n - 1]], a.lengths[n - 1], a.disps[n - 1])]
  }

  ghost predicate OpenState(store: seq<Datatype>, s: State, ps: seq<Piece>)
    requires ValidState(store, s)
  {
    if s.Waiting? then Held(EMPTY, ps) else Open(s.pdt, store[s.last], s.length, s.disp, ps)
  }

  lemma StateCloses(store: seq<Datatype>, s: State, ps: seq<Piece>)
    requires ValidState(store, s) && OpenState(store, s, ps)
    ensures Held(FlushMembers(store, s), ps)
  {
    if s.Running? {
      Close(s.pdt, store[s.last], s.length, s.disp, ps);
    }
  }

  /** A longer run, also when it or what comes is empty. */
  lemma Prolongs(pdt: Datatype, t: Datatype, n: nat, d: int, more: nat, d': int, ps: seq<Piece>, total: nat)
    requires Open(pdt, t, n, d, ps) && Reached(Piece(t, more, d')) && d' == d + n * Extent(t) && total == n + more
    ensures Open(pdt, t, total, d, ps + [Piece(t, more, d')])
  {
    var p := Piece(t, more, d');
    if more == 0 {
      EmptyOpen(pdt, t, total, d, ps, p);
    } else if n == 0 {
      assert d' == d;
      Begin(pdt, t, total, d, ps);
    } else {
      Lengthen(pdt, t, n, d, more, d', ps);
    }
  }

  lemma NewRun(store: seq<Datatype>, s: State, handle: nat, p: Piece, ps: seq<Piece>)
    requires ValidState(store, s) && OpenState(store, s, ps) && Reached(p) && handle < |store| && p.t == store[handle]
    ensures OpenState(store, Running(FlushMembers(store, s), handle, p.n, p.d), ps + [p])
  {
    StateCloses(store, s, ps);
    Begin(FlushMembers(store, s), p.t, p.n, p.d, ps);
  }

  lemma SameRun(store: seq<Datatype>, s: State, p: Piece, ps: seq<Piece>)
    requires s.Running? && ValidState(store, s) && OpenState(store, s, ps) && Reached(p)
    requires p.t == store[s.last] && p.d == s.disp + Extent(p.t) * s.length
    ensures OpenState(store, s.(length := s.length + p.n), ps + [p])
  {
    Prolongs(s.pdt, p.t, s.length, s.disp, p.n, p.d, ps, s.length + p.n);
  }

  lemma ExtendOpenState(store: seq<Datatype>, s: State, handle: nat, p: Piece, ps: seq<Piece>)
    requires ValidState(store, s) && handle < |store| && OpenState(store, s, ps) && Reached(p) && p.t == store[handle]
    ensures OpenState(store, ExtendMembers(store, s, handle, p.n, p.d), ps + [p])
  {
    if s.Waiting? && p.n == 0 {
      EmptyPiece(EMPTY, ps, p);
    } else if s.Running? && handle == s.last && p.d == s.disp + Extent(p.t) * s.length {
      SameRun(store, s, p, ps);
    } else {
      NewRun(store, s, handle, p, ps);
    }
  }

  lemma {:induction false} StatesOpen(store: seq<Datatype>, a: Args, n: nat)
    requires ValidArgs(store, a) && n <= |a.types| && AllReached(MemberPieces(store, a, |a.types|))
    ensures OpenState(store, States(store, a, n), MemberPieces(store, a, n))
  {
    if n == 0 {
      Nothing(EMPTY, 0);
    } else {
      StatesOpen(store, a, n - 1);
      assert Reached(MemberPieces(store, a, |a.types|)[n - 1]);
      ExtendOpenState(store, States(store, a, n - 1), a.types[n - 1], MemberPieces(store, a, n)[n - 1], MemberPieces(store, a, n - 1));
    }
  }

  /** A struct has the bounds of its elements, markers and all. */
  lemma StructSpans(store: seq<Datatype>, a: Args)
    requires ValidArgs(store, a) && !AllZero(a.lengths) && AllReached(MemberPieces(store, a, |a.types|))
    ensures Spans(Struct(store, a), MemberPieces(store, a, |a.types|))
  {
    var ps := MemberPieces(store, a, |a.types|);
    StatesOpen(store, a, |a.types|);
    StateCloses(store, States(store, a, |a.types|), ps);
    var i :| 0 <= i < |a.lengths| && a.lengths[i] != 0;
    assert ps[i].n > 0;
    HeldSpans(Struct(store, a), ps);
  }
}
