/** Datatypes as type maps (section 4.1 of MPI-3.1), and the two primitives every
    constructor is built from: opal_datatype_add and opal_datatype_resize. */
module Typemap {
  import opened Basics

  /** A basic datatype at a byte displacement. */
  datatype Entry = Entry(basic: nat, disp: int)

  /** `userLb` and `userUb` are the flags for bounds set by MPI-1 markers. */
  datatype Datatype = Datatype(entries: seq<Entry>, lb: int, ub: int, userLb: bool, userUb: bool, align: nat)

  const LONG_MAX := 0x7fff_ffff_ffff_ffff
  const LONG_MIN := -0x8000_0000_0000_0000

  /** opal_datatype_create. */
  const EMPTY := Datatype([], LONG_MAX, LONG_MIN, false, false, 1)

  /** What ompi_datatype_duplicate makes of MPI_DATATYPE_NULL. */
  const NULL_COPY := Datatype([], 0, 0, false, false, 0)

  /** Bounds that a 64-bit machine can hold. */
  predicate Bounded(t: Datatype) {
    t.lb <= LONG_MAX && t.ub >= LONG_MIN
  }

  function Extent(t: Datatype): int {
    t.ub - t.lb
  }

  function Shift(m: seq<Entry>, d: int): (r: seq<Entry>)
    ensures |r| == |m|
  {
    seq(|m|, i requires 0 <= i < |m| => Entry(m[i].basic, m[i].disp + d))
  }

  /** `n` copies of a type map, the first at `d` and each `e` bytes after the last. */
  function Copies(m: seq<Entry>, n: nat, d: int, e: int): (r: seq<Entry>) {
    if n == 0 then [] else Shift(m, d) + Copies(m, n - 1, d + e, e)
  }

  /** The bounds of `count` > 0 copies: OPAL_DATATYPE_LB_UB_CONT. */
  function BoundsOfCopies(t: Datatype, count: nat, disp: int, extent: int): (int, int) {
    var last := disp + extent * (count - 1);
    (Smaller(disp, last) + t.lb, Larger(disp, last) + t.ub)
  }

  /** The remainder of the division that truncates toward zero. */
  function Remainder(a: int, b: nat): int
    requires b > 0
  {
    if a >= 0 then a % b else -((-a) % b)
  }

  /** OPAL_DATATYPE_LB_UB_CONT's bounds joined with those there are; a bound set by a marker wins. */
  function JoinLb(base: Datatype, t: Datatype, lb: int): int {
    if t.userLb == base.userLb then Smaller(base.lb, lb) else if base.userLb then base.lb else lb
  }

  function JoinUb(base: Datatype, t: Datatype, ub: int): int {
    if t.userUb == base.userUb then Larger(base.ub, ub) else if base.userUb then base.ub else ub
  }

  /** The upper bound rounded up to the alignment, unless a marker set it. */
  function Padded(lb: int, ub: int, align: nat, userUb: bool): int
    requires align > 0
  {
    var epsilon := Remainder(ub - lb, align);
    if !userUb && epsilon != 0 then ub + (align - epsilon) else ub
  }

  function JoinAlign(base: Datatype, t: Datatype): nat {
    if base.align < t.align then t.align else base.align
  }

  /** opal_datatype_add. An extent of -1 asks for the extent of the added type. */
  function Add(base: Datatype, t: Datatype, count: nat, disp: int, extent: int): (r: Datatype)
    requires base.align > 0
    ensures r.align > 0
  {
    if count == 0 then base
    else
      var e := if extent == -1 then Extent(t) else extent;
      var bounds := BoundsOfCopies(t, count, disp, e);
      var lb, userUb := JoinLb(base, t, bounds.0), base.userUb || t.userUb;
      Datatype(base.entries + Copies(t.entries, count, disp, e), lb,
               Padded(lb, JoinUb(base, t, bounds.1), JoinAlign(base, t), userUb),
               base.userLb || t.userLb, userUb, JoinAlign(base, t))
  }

  /** opal_datatype_resize. */
  function Resize(t: Datatype, lb: int, extent: int): Datatype {
    t.(lb := lb, ub := lb + extent)
  }

  // ------------------------------------------------------------------- lemmas

  lemma ShiftAppend(a: seq<Entry>, b: seq<Entry>, d: int)
    ensures Shift(a + b, d) == Shift(a, d) + Shift(b, d)
  {
  }

  lemma ShiftTwice(m: seq<Entry>, d: int, d': int)
    ensures Shift(Shift(m, d), d') == Shift(m, d + d')
  {
  }

  lemma ShiftZero(m: seq<Entry>)
    ensures Shift(m, 0) == m
  {
  }

  lemma {:induction false} CopiesShift(m: seq<Entry>, n: nat, d: int, e: int, s: int)
    ensures Shift(Copies(m, n, d, e), s) == Copies(m, n, d + s, e)
  {
    if n > 0 {
      CopiesShift(m, n - 1, d + e, e, s);
      ShiftAppend(Shift(m, d), Copies(m, n - 1, d + e, e), s);
      ShiftTwice(m, d, s);
      assert d + e + s == d + s + e;
    }
  }

  lemma {:induction false} CopiesSplit(m: seq<Entry>, a: nat, b: nat, d: int, e: int)
    ensures Copies(m, a + b, d, e) == Copies(m, a, d, e) + Copies(m, b, d + a * e, e)
  {
    if a > 0 {
      CopiesSplit(m, a - 1, b, d + e, e);
      Distribute(a - 1, 1, e);
      assert d + e + (a - 1) * e == d + a * e;
      Associative(Shift(m, d), Copies(m, a - 1, d + e, e), Copies(m, b, d + a * e, e));
    }
  }

  lemma {:induction false} CopiesOfNothing(n: nat, d: int, e: int)
    ensures Copies([], n, d, e) == []
  {
    if n > 0 {
      CopiesOfNothing(n - 1, d + e, e);
    }
  }

  lemma CopiesOne(m: seq<Entry>, d: int, e: int)
    ensures Copies(m, 1, d, e) == Shift(m, d)
  {
    assert Copies(m, 0, d + e, e) == [];
  }

  lemma AddOnce(t: Datatype, d: int, e: int)
    ensures Add(EMPTY, t, 1, d, e).entries == Shift(t.entries, d)
  {
    CopiesOne(t.entries, d, if e == -1 then Extent(t) else e);
  }

  // ------------------------------------------------------------- adding in two goes

  lemma {:induction false} SpanOrder(a: nat, b: nat, d: int, e: int)
    requires a >= 1 && b >= 1
    ensures d + a * e + e * (b - 1) == d + e * (a + b - 1)
    ensures e >= 0 ==> d <= d + e * (a - 1) <= d + a * e <= d + e * (a + b - 1)
    ensures e <= 0 ==> d >= d + e * (a - 1) >= d + a * e >= d + e * (a + b - 1)
  {
    Distribute(a, b - 1, e);
    Distribute(a - 1, 1, e);
    if e >= 0 {
      ProductNonNegative(a - 1, e);
      ProductNonNegative(b - 1, e);
    } else {
      ProductNonNegative(a - 1, -e);
      ProductNonNegative(b - 1, -e);
    }
  }

  /** The bounds of copies are those of the first and the last ones together. */
  lemma BoundsSplit(t: Datatype, a: nat, b: nat, d: int, e: int)
    requires a >= 1 && b >= 1
    ensures var all, first, rest := BoundsOfCopies(t, a + b, d, e), BoundsOfCopies(t, a, d, e), BoundsOfCopies(t, b, d + a * e, e);
            && all == (Smaller(first.0, rest.0), Larger(first.1, rest.1))
            && (e >= 0 ==> first.0 <= rest.0)
  {
    SpanOrder(a, b, d, e);
  }

  /** The bounds of copies are in order if those of the type are. */
  lemma BoundsInOrder(t: Datatype, a: nat, d: int)
    requires a >= 1 && Extent(t) >= 0
    ensures var first := BoundsOfCopies(t, a, d, Extent(t)); first.0 <= first.1
  {
    ProductNonNegative(Extent(t), a - 1);
  }

  lemma RoundsUp(n: nat, a: nat, q: nat)
    requires a > 0 && q * a < n <= (q + 1) * a
    ensures (if n % a == 0 then n else n + (a - n % a)) == (q + 1) * a
  {
    Distribute(q, 1, a);
    if n == (q + 1) * a {
      Decompose(n, q + 1, 0, a);
    } else {
      Decompose(n, q, n - q * a, a);
    }
  }

  /** Padding before a larger bound comes makes no difference. */
  lemma PaddedAbsorbs(lb: int, x: int, y: int, align: nat)
    requires align > 0 && lb <= x
    ensures Padded(lb, Larger(Padded(lb, x, align, false), y), align, false) == Padded(lb, Larger(x, y), align, false)
  {
    var n := x - lb;
    if n % align != 0 {
      var q := n / align;
      DivMod(n, align);
      Distribute(q, 1, align);
      RoundsUp(n, align, q);
      RoundsUp((q + 1) * align, align, q);
      if x < y && y - lb <= (q + 1) * align {
        RoundsUp(y - lb, align, q);
      }
    }
  }

  lemma NoRemainder(x: int)
    ensures Remainder(x, 1) == 0
  {
  }

  /** The bounds after an addition, before padding. */
  function NewBounds(base: Datatype, t: Datatype, n: nat, d: int): (int, int)
    requires n >= 1
  {
    var bounds := BoundsOfCopies(t, n, d, Extent(t));
    (JoinLb(base, t, bounds.0), JoinUb(base, t, bounds.1))
  }

  /** Padding after these copies makes no difference to what is added behind them: there is
      none, or the bounds are in order and the lower one is final. */
  predicate Settled(base: Datatype, t: Datatype, n: nat, d: int)
    requires n >= 1 && base.align > 0
  {
    || base.userUb || t.userUb
    || Remainder(NewBounds(base, t, n, d).1 - NewBounds(base, t, n, d).0, JoinAlign(base, t)) == 0
    || (NewBounds(base, t, n, d).0 <= NewBounds(base, t, n, d).1 && (Extent(t) >= 0 || (base.userLb && !t.userLb)))
  }

  /** The upper bound after two additions is that after one. */
  lemma UpperTwice(base: Datatype, t: Datatype, lb: int, lb': int, u: int, u': int)
    requires base.align > 0
    requires var ub := JoinUb(base, t, u);
             base.userUb || t.userUb || Remainder(ub - lb, JoinAlign(base, t)) == 0 || (lb == lb' && lb <= ub)
    ensures var align, user := JoinAlign(base, t), base.userUb || t.userUb;
            var once := base.(ub := Padded(lb, JoinUb(base, t, u), align, user), userUb := user);
            Padded(lb', JoinUb(once, t, u'), align, user) == Padded(lb', JoinUb(base, t, Larger(u, u')), align, user)
  {
    var align, user := JoinAlign(base, t), base.userUb || t.userUb;
    if !user && lb == lb' && lb <= JoinUb(base, t, u) {
      PaddedAbsorbs(lb, JoinUb(base, t, u), u', align);
    }
  }

  /** Copies added in two goes make the same type as those added at once. */
  lemma AddTwice(base: Datatype, t: Datatype, a: nat, b: nat, d: int)
    requires base.align > 0 && a >= 1 && b >= 1 && Settled(base, t, a, d)
    ensures var e := Extent(t); Add(Add(base, t, a, d, e), t, b, d + a * e, e) == Add(base, t, a + b, d, e)
  {
    var e := Extent(t);
    var first, rest := BoundsOfCopies(t, a, d, e), BoundsOfCopies(t, b, d + a * e, e);
    BoundsSplit(t, a, b, d, e);
    Prolong(base.entries, t.entries, a, b, d, e, d + a * e);
    var once := Add(base, t, a, d, e);
    var lb := JoinLb(base, t, first.0);
    assert JoinLb(once, t, rest.0) == JoinLb(base, t, Smaller(first.0, rest.0));
    UpperTwice(base, t, lb, JoinLb(once, t, rest.0), first.1, rest.1);
  }

  /** Also when one of the goes adds nothing. */
  lemma AddSplit(base: Datatype, t: Datatype, a: nat, b: nat, d: int, d': int)
    requires base.align > 0 && (a >= 1 ==> Settled(base, t, a, d)) && d' == d + a * Extent(t)
    ensures Add(Add(base, t, a, d, Extent(t)), t, b, d', Extent(t)) == Add(base, t, a + b, d, Extent(t))
  {
    if a >= 1 && b >= 1 {
      AddTwice(base, t, a, b, d);
    }
  }

  /** A block that starts where the run ends prolongs it. */
  lemma Prolong(done: seq<Entry>, m: seq<Entry>, length: nat, more: nat, disp: int, e: int, next: int)
    requires next == disp + length * e
    ensures done + Copies(m, length + more, disp, e) == (done + Copies(m, length, disp, e)) + Copies(m, more, next, e)
  {
    CopiesSplit(m, length, more, disp, e);
    Associative(done, Copies(m, length, disp, e), Copies(m, more, next, e));
  }
}
