/** Blocks of one type, merged into runs where one starts where the other ends
    (ompi/datatype/ompi_datatype_create_indexed.c), and exactly when that makes the
    same type as adding them one by one. */
module Merging {
  import opened Basics
  import opened Typemap

  /** The first `n` blocks, one after the other: block i is `lengths[i]` elements
      starting `disps[i] * unit` bytes in. */
  function Blocks(elem: Datatype, lengths: seq<nat>, disps: seq<int>, unit: int, n: nat): seq<Entry>
    requires n <= |lengths| == |disps|
  {
    if n == 0 then []
    else Blocks(elem, lengths, disps, unit, n - 1) + Copies(elem.entries, lengths[n - 1], disps[n - 1] * unit, Extent(elem))
  }

  /** The type made of the first `n` blocks when each is added on its own. */
  function Separate(elem: Datatype, lengths: seq<nat>, disps: seq<int>, unit: int, n: nat): (r: Datatype)
    requires n <= |lengths| == |disps|
    ensures r.align > 0
  {
    if n == 0 then EMPTY
    else Add(Separate(elem, lengths, disps, unit, n - 1), elem, lengths[n - 1], disps[n - 1] * unit, Extent(elem))
  }

  /** The type under construction, and the run that has not been added to it yet. */
  datatype Run = Run(pdt: Datatype, length: nat, disp: int)

  /** The type with the run added. */
  function Flush(elem: Datatype, r: Run, unit: int): (t: Datatype)
    requires r.pdt.align > 0
    ensures t.align > 0
  {
    Add(r.pdt, elem, r.length, r.disp * unit, Extent(elem))
  }

  /** One more block, `step` being the extent in units of displacements. */
  function Extend(elem: Datatype, r: Run, length: nat, disp: int, unit: int, step: int): (r': Run)
    requires r.pdt.align > 0
    ensures r'.pdt.align > 0
  {
    if length == 0 then r
    else if r.length == 0 then Run(r.pdt, length, disp)
    else if r.disp + r.length * step == disp then r.(length := r.length + length)
    else Run(Flush(elem, r, unit), length, disp)
  }

  function Runs(elem: Datatype, lengths: seq<nat>, disps: seq<int>, unit: int, step: int, n: nat): (r: Run)
    requires n <= |lengths| == |disps|
    ensures r.pdt.align > 0
  {
    if n == 0 then Run(EMPTY, 0, 0)
    else Extend(elem, Runs(elem, lengths, disps, unit, step, n - 1), lengths[n - 1], disps[n - 1], unit, step)
  }

  /** The type made of the first `n` blocks when they are merged first. */
  function Merged(elem: Datatype, lengths: seq<nat>, disps: seq<int>, unit: int, step: int, n: nat): Datatype
    requires n <= |lengths| == |disps|
  {
    Flush(elem, Runs(elem, lengths, disps, unit, step, n), unit)
  }

  predicate AllZero(lengths: seq<nat>) {
    forall i :: 0 <= i < |lengths| ==> lengths[i] == 0
  }

  // ---------------------------------------------------------------- the same entries

  lemma {:induction false} RunsOfNothing(elem: Datatype, lengths: seq<nat>, disps: seq<int>, unit: int, step: int, n: nat)
    requires n <= |lengths| == |disps| && forall i :: 0 <= i < n ==> lengths[i] == 0
    ensures Runs(elem, lengths, disps, unit, step, n) == Run(EMPTY, 0, 0)
  {
    if n > 0 {
      RunsOfNothing(elem, lengths, disps, unit, step, n - 1);
    }
  }

  lemma {:induction false} BlocksOfNothing(elem: Datatype, lengths: seq<nat>, disps: seq<int>, unit: int, n: nat)
    requires n <= |lengths| == |disps|
    requires elem.entries == [] || forall i :: 0 <= i < n ==> lengths[i] == 0
    ensures Blocks(elem, lengths, disps, unit, n) == []
  {
    if n > 0 {
      BlocksOfNothing(elem, lengths, disps, unit, n - 1);
      if elem.entries == [] {
        CopiesOfNothing(lengths[n - 1], disps[n - 1] * unit, Extent(elem));
      }
    }
  }

  lemma NextStart(disp: int, length: nat, unit: int, step: int, e: int)
    requires unit * step == e
    ensures (disp + length * step) * unit == disp * unit + length * e
  {
    Distribute(disp, length * step, unit);
    Regroup(length, step, unit);
  }

  lemma ExtendEntries(elem: Datatype, r: Run, length: nat, disp: int, unit: int, step: int)
    requires r.pdt.align > 0 && unit * step == Extent(elem)
    ensures Flush(elem, Extend(elem, r, length, disp, unit, step), unit).entries
            == Flush(elem, r, unit).entries + Copies(elem.entries, length, disp * unit, Extent(elem))
  {
    if length > 0 && r.length > 0 && r.disp + r.length * step == disp {
      NextStart(r.disp, r.length, unit, step, Extent(elem));
      Prolong(r.pdt.entries, elem.entries, r.length, length, r.disp * unit, Extent(elem), disp * unit);
    }
  }

  /** Merging never changes the type map. */
  lemma {:induction false} MergedEntries(elem: Datatype, lengths: seq<nat>, disps: seq<int>, unit: int, step: int, n: nat)
    requires n <= |lengths| == |disps| && unit * step == Extent(elem)
    ensures Merged(elem, lengths, disps, unit, step, n).entries == Blocks(elem, lengths, disps, unit, n)
  {
    if n > 0 {
      MergedEntries(elem, lengths, disps, unit, step, n - 1);
      ExtendEntries(elem, Runs(elem, lengths, disps, unit, step, n - 1), lengths[n - 1], disps[n - 1], unit, step);
    }
  }

  // ------------------------------------------------------------ when bounds are the same

  /** The type is not backwards, or never padded. */
  predicate Plain(elem: Datatype) {
    elem.userUb || elem.align <= 1 || Extent(elem) >= 0
  }

  /** At multiples of its extent it is never padded either. */
  predicate Even(elem: Datatype) {
    Plain(elem) || Extent(elem) % elem.align == 0
  }

  /** The bounds of copies replace those of an empty type. */
  predicate Anchors(elem: Datatype, length: nat, disp: int) {
    var bounds := BoundsOfCopies(elem, length, disp, Extent(elem));
    bounds.0 <= LONG_MAX && bounds.1 >= LONG_MIN
  }

  /** Two numbers differ by a multiple of the alignment. */
  predicate Apart(x: int, y: int, align: nat)
    requires align > 0
  {
    (x - y) % align == 0
  }

  /** What copies of a type that is not plain make at multiples of an extent that the alignment divides. */
  predicate Level(pdt: Datatype, elem: Datatype)
    requires elem.align > 1
  {
    || pdt == EMPTY
    || (&& !pdt.userUb && pdt.userLb == elem.userLb && pdt.align == elem.align
        && Apart(pdt.lb, elem.lb, elem.align) && Apart(pdt.ub, elem.lb, elem.align))
  }

  lemma ModSum(x: int, y: int, a: nat)
    requires a > 0 && x % a == 0 && y % a == 0
    ensures (x + y) % a == 0 && (x - y) % a == 0
  {
    DivMod(x, a);
    DivMod(y, a);
    Distribute(x / a, y / a, a);
    Distribute(x / a, -(y / a), a);
    Decompose(x + y, x / a + y / a, 0, a);
    Decompose(x - y, x / a - y / a, 0, a);
  }

  lemma ModProduct(x: int, y: int, a: nat)
    requires a > 0 && x % a == 0
    ensures (x * y) % a == 0 && (y * x) % a == 0
  {
    DivMod(x, a);
    Regroup(y, x / a, a);
    Decompose(y * x, y * (x / a), 0, a);
  }

  lemma NoRest(x: int, a: nat)
    requires a > 0 && x % a == 0
    ensures Remainder(x, a) == 0
  {
    ModSum(0, x, a);
  }

  lemma ApartFrom(x: int, y: int, z: int, a: nat)
    requires a > 0 && Apart(x, z, a) && Apart(y, z, a)
    ensures Apart(x, y, a)
  {
    ModSum(x - z, y - z, a);
  }

  /** Copies at a multiple of the extent keep the type level, without padding. */
  lemma LevelBounds(elem: Datatype, n: nat, disp: int)
    requires !Plain(elem) && Even(elem) && n >= 1
    ensures var bounds := BoundsOfCopies(elem, n, disp * Extent(elem), Extent(elem));
            Apart(bounds.0, elem.lb, elem.align) && Apart(bounds.1, elem.lb, elem.align)
  {
    var e, a := Extent(elem), elem.align;
    ModProduct(e, disp, a);
    ModProduct(e, n - 1, a);
    ModSum(disp * e, e * (n - 1), a);
    ModSum(disp * e, e, a);
    ModSum(disp * e + e * (n - 1), e, a);
  }

  lemma LevelAdd(pdt: Datatype, elem: Datatype, n: nat, disp: int)
    requires !Plain(elem) && Even(elem) && n >= 1 && Level(pdt, elem) && pdt.align > 0
    requires pdt == EMPTY ==> Anchors(elem, n, disp * Extent(elem))
    ensures Settled(pdt, elem, n, disp * Extent(elem))
    ensures Level(Add(pdt, elem, n, disp * Extent(elem), Extent(elem)), elem)
  {
    var bounds := NewBounds(pdt, elem, n, disp * Extent(elem));
    LevelBounds(elem, n, disp);
    ApartFrom(bounds.1, bounds.0, elem.lb, elem.align);
    NoRest(bounds.1 - bounds.0, elem.align);
  }

  /** The first block that is not empty anchors the type. */
  predicate First(lengths: seq<nat>, i: nat) {
    i < |lengths| && lengths[i] > 0 && forall j :: 0 <= j < i ==> lengths[j] == 0
  }

  ghost predicate Anchored(elem: Datatype, lengths: seq<nat>, disps: seq<int>, unit: int)
    requires |lengths| == |disps|
  {
    forall i: nat {:trigger First(lengths, i)} :: First(lengths, i) ==> Anchors(elem, lengths[i], disps[i] * unit)
  }

  /** What holds of a run when merging is harmless. */
  ghost predicate Harmless(elem: Datatype, r: Run, unit: int) {
    && 0 < r.pdt.align <= Larger(1, elem.align) && (r.pdt.userLb ==> elem.userLb) && (r.length == 0 ==> r.pdt == EMPTY)
    && (!Plain(elem) ==>
          && Even(elem) && unit == Extent(elem) && Level(r.pdt, elem)
          && (r.pdt == EMPTY && r.length > 0 ==> Anchors(elem, r.length, r.disp * unit)))
  }

  lemma HarmlessSettles(elem: Datatype, r: Run, unit: int)
    requires Harmless(elem, r, unit) && r.length >= 1
    ensures Settled(r.pdt, elem, r.length, r.disp * unit)
  {
    if !Plain(elem) {
      LevelAdd(r.pdt, elem, r.length, r.disp);
    } else if !elem.userUb && elem.align <= 1 {
      var bounds := NewBounds(r.pdt, elem, r.length, r.disp * unit);
      NoRemainder(bounds.1 - bounds.0);
    } else if !elem.userUb {
      BoundsInOrder(elem, r.length, r.disp * unit);
    }
  }

  lemma LongerHarmless(elem: Datatype, r: Run, length: nat, disp: int, unit: int)
    requires Harmless(elem, r, unit) && r.length > 0 && length > 0 && disp * unit == r.disp * unit + r.length * Extent(elem)
    ensures Harmless(elem, r.(length := r.length + length), unit)
    ensures Flush(elem, r.(length := r.length + length), unit) == Add(Flush(elem, r, unit), elem, length, disp * unit, Extent(elem))
  {
    HarmlessSettles(elem, r, unit);
    AddSplit(r.pdt, elem, r.length, length, r.disp * unit, disp * unit);
    BoundsSplit(elem, r.length, length, r.disp * unit, Extent(elem));
  }

  lemma NextHarmless(elem: Datatype, r: Run, length: nat, disp: int, unit: int)
    requires Harmless(elem, r, unit) && r.length > 0 && length > 0
    ensures Harmless(elem, Run(Flush(elem, r, unit), length, disp), unit)
  {
    if !Plain(elem) {
      LevelAdd(r.pdt, elem, r.length, r.disp);
    }
  }

  lemma ExtendHarmless(elem: Datatype, r: Run, length: nat, disp: int, unit: int, step: int)
    requires Harmless(elem, r, unit) && unit * step == Extent(elem)
    requires !Plain(elem) && r.length == 0 && length > 0 ==> Anchors(elem, length, disp * unit)
    ensures Harmless(elem, Extend(elem, r, length, disp, unit, step), unit)
    ensures Flush(elem, Extend(elem, r, length, disp, unit, step), unit) == Add(Flush(elem, r, unit), elem, length, disp * unit, Extent(elem))
  {
    if length > 0 && r.length > 0 {
      if r.disp + r.length * step == disp {
        NextStart(r.disp, r.length, unit, step, Extent(elem));
        LongerHarmless(elem, r, length, disp, unit);
      } else {
        NextHarmless(elem, r, length, disp, unit);
      }
    }
  }

  /** A run is there once a block has come. */
  lemma {:induction false} NoRunYet(elem: Datatype, lengths: seq<nat>, disps: seq<int>, unit: int, step: int, n: nat)
    requires n <= |lengths| == |disps| && Runs(elem, lengths, disps, unit, step, n).length == 0
    ensures forall i :: 0 <= i < n ==> lengths[i] == 0
  {
    if n > 0 {
      NoRunYet(elem, lengths, disps, unit, step, n - 1);
    }
  }

  lemma {:induction false} MergedIsSeparate(elem: Datatype, lengths: seq<nat>, disps: seq<int>, unit: int, step: int, n: nat)
    requires n <= |lengths| == |disps| && unit * step == Extent(elem)
    requires Plain(elem) || (Even(elem) && unit == Extent(elem) && Anchored(elem, lengths, disps, unit))
    ensures Harmless(elem, Runs(elem, lengths, disps, unit, step, n), unit)
    ensures Merged(elem, lengths, disps, unit, step, n) == Separate(elem, lengths, disps, unit, n)
  {
    if n > 0 {
      var r := Runs(elem, lengths, disps, unit, step, n - 1);
      MergedIsSeparate(elem, lengths, disps, unit, step, n - 1);
      if r.length == 0 && lengths[n - 1] > 0 {
        NoRunYet(elem, lengths, disps, unit, step, n - 1);
        assert First(lengths, n - 1);
      }
      ExtendHarmless(elem, r, lengths[n - 1], disps[n - 1], unit, step);
    }
  }

  // --------------------------------------------------------- when they are not the same

  /** Padding only ever moves a bound up, and does when there is a remainder. */
  lemma PaddedGrows(lb: int, ub: int, align: nat)
    requires align > 0
    ensures Padded(lb, ub, align, false) >= ub
    ensures (ub - lb) % align != 0 ==> Padded(lb, ub, align, false) > ub
    ensures (ub - lb) % align == 0 ==> Padded(lb, ub, align, false) == ub
  {
    DivMod(ub - lb, align);
    DivMod(lb - ub, align);
    if (lb - ub) % align == 0 {
      ModSum(0, lb - ub, align);
    }
    if (ub - lb) % align == 0 {
      NoRest(ub - lb, align);
    }
  }

  /** An addition never moves the upper bound down. */
  lemma AddGrows(base: Datatype, t: Datatype, n: nat, d: int)
    requires base.align > 0 && !base.userUb && !t.userUb
    ensures Add(base, t, n, d, Extent(t)).ub >= base.ub
  {
    if n > 0 {
      var bounds := NewBounds(base, t, n, d);
      PaddedGrows(bounds.0, bounds.1, JoinAlign(base, t));
    }
  }

  lemma ThreeBlocks(elem: Datatype, disps: seq<int>, unit: int, step: int)
    requires |disps| == 3
    ensures var t := Add(EMPTY, elem, 1, disps[0] * unit, Extent(elem));
            Separate(elem, [1, 1, 1], disps, unit, 2) == Add(t, elem, 1, disps[1] * unit, Extent(elem))
    ensures disps[1] != disps[0] + step && disps[2] == disps[1] + step ==>
              Runs(elem, [1, 1, 1], disps, unit, step, 3) == Run(Add(EMPTY, elem, 1, disps[0] * unit, Extent(elem)), 2, disps[1])
  {
    var ones: seq<nat> := [1, 1, 1];
    assert Separate(elem, ones, disps, unit, 0) == EMPTY;
    assert Separate(elem, ones, disps, unit, 1) == Add(EMPTY, elem, 1, disps[0] * unit, Extent(elem));
    assert Runs(elem, ones, disps, unit, step, 0) == Run(EMPTY, 0, 0);
    assert Runs(elem, ones, disps, unit, step, 1) == Run(EMPTY, 1, disps[0]);
  }

  lemma TwoBlocks(elem: Datatype, disps: seq<int>, unit: int, step: int)
    requires |disps| == 2
    ensures Separate(elem, [1, 1], disps, unit, 1) == Add(EMPTY, elem, 1, disps[0] * unit, Extent(elem))
    ensures disps[1] == disps[0] + step ==> Runs(elem, [1, 1], disps, unit, step, 2) == Run(EMPTY, 2, disps[0])
  {
    var ones: seq<nat> := [1, 1];
    assert Separate(elem, ones, disps, unit, 0) == EMPTY;
    assert Runs(elem, ones, disps, unit, step, 0) == Run(EMPTY, 0, 0);
    assert Runs(elem, ones, disps, unit, step, 1) == Run(EMPTY, 1, disps[0]);
  }

  /** Two elements side by side: the first alone is padded, both together are not. */
  lemma PairDiffers(elem: Datatype, unit: int, step: int)
    requires Bounded(elem) && !Even(elem) && unit * step == Extent(elem)
    ensures Merged(elem, [1, 1], [0, step], unit, step, 2).ub < Separate(elem, [1, 1], [0, step], unit, 2).ub
  {
    var e := Extent(elem);
    TwoBlocks(elem, [0, step], unit, step);
    var one := Add(EMPTY, elem, 1, 0, e);
    assert BoundsOfCopies(elem, 1, 0, e) == (elem.lb, elem.ub) && BoundsOfCopies(elem, 2, 0, e) == (elem.lb + e, elem.ub);
    PaddedGrows(elem.lb, elem.ub, elem.align);
    PaddedGrows(elem.lb + e, elem.ub, elem.align);
    AddGrows(one, elem, 1, step * unit);
  }

  lemma OneOff(e: int, a: nat)
    requires a > 1 && e % a == 0
    ensures (e + 1) % a != 0 && e != -1
  {
    if (e + 1) % a == 0 {
      ModSum(e + 1, e, a);
    }
  }

  lemma OneAlone(elem: Datatype, one: Datatype)
    requires Bounded(elem) && !Plain(elem) && Even(elem) && one == Add(EMPTY, elem, 1, 0, Extent(elem))
    ensures one.lb == elem.lb && one.ub == elem.ub && one.align == elem.align && !one.userUb && one.userLb == elem.userLb
  {
    assert BoundsOfCopies(elem, 1, 0, Extent(elem)) == (elem.lb, elem.ub);
    PaddedGrows(elem.lb, elem.ub, elem.align);
  }

  lemma NextOnePadded(elem: Datatype, one: Datatype)
    requires Bounded(elem) && !Plain(elem) && Even(elem) && one == Add(EMPTY, elem, 1, 0, Extent(elem))
    ensures Add(one, elem, 1, 1, Extent(elem)).ub > elem.ub + 1 && !Add(one, elem, 1, 1, Extent(elem)).userUb
  {
    OneAlone(elem, one);
    OneOff(Extent(elem), elem.align);
    assert BoundsOfCopies(elem, 1, 1, Extent(elem)) == (elem.lb + 1, elem.ub + 1);
    PaddedGrows(elem.lb, elem.ub + 1, elem.align);
  }

  lemma NextTwoNotPadded(elem: Datatype, one: Datatype)
    requires Bounded(elem) && !Plain(elem) && Even(elem) && one == Add(EMPTY, elem, 1, 0, Extent(elem))
    ensures Add(one, elem, 2, 1, Extent(elem)).ub == elem.ub + 1
  {
    var e := Extent(elem);
    OneAlone(elem, one);
    OneOff(e, elem.align);
    assert BoundsOfCopies(elem, 2, 1, e) == (elem.lb + 1 + e, elem.ub + 1);
    PaddedGrows(elem.lb + 1 + e, elem.ub + 1, elem.align);
  }

  /** An element, and one byte further two elements side by side: the first two elements
      together are padded, all three are not. */
  lemma TripleDiffers(elem: Datatype)
    requires Bounded(elem) && !Plain(elem) && Even(elem)
    ensures var e := Extent(elem);
            Merged(elem, [1, 1, 1], [0, 1, 1 + e], 1, e, 3).ub < Separate(elem, [1, 1, 1], [0, 1, 1 + e], 1, 3).ub
  {
    var e := Extent(elem);
    var one := Add(EMPTY, elem, 1, 0, e);
    ThreeBlocks(elem, [0, 1, 1 + e], 1, e);
    NextOnePadded(elem, one);
    NextTwoNotPadded(elem, one);
    AddGrows(Separate(elem, [1, 1, 1], [0, 1, 1 + e], 1, 2), elem, 1, 1 + e);
  }

  // --------------------------------------------------------------------- the constructors

  /** What the constructors for blocks of different lengths make; types without data are replaced. */
  function Indexed(elem: Datatype, lengths: seq<nat>, disps: seq<int>, unit: int, step: int): Datatype
    requires |lengths| == |disps|
  {
    if elem.entries == [] || AllZero(lengths) then NULL_COPY else Merged(elem, lengths, disps, unit, step, |lengths|)
  }

  function IndexedOneByOne(elem: Datatype, lengths: seq<nat>, disps: seq<int>, unit: int): Datatype
    requires |lengths| == |disps|
  {
    if elem.entries == [] || AllZero(lengths) then NULL_COPY else Separate(elem, lengths, disps, unit, |lengths|)
  }

  /** `n` blocks of the same length. */
  function Same(n: nat, length: nat): (r: seq<nat>)
    ensures |r| == n && forall i :: 0 <= i < n ==> r[i] == length
  {
    if n == 0 then [] else Same(n - 1, length) + [length]
  }

  /** What the constructors for blocks of one length make. */
  function IndexedBlock(elem: Datatype, length: nat, disps: seq<int>, unit: int, step: int): Datatype {
    if disps == [] || length == 0 then NULL_COPY else Merged(elem, Same(|disps|, length), disps, unit, step, |disps|)
  }

  function IndexedBlockOneByOne(elem: Datatype, length: nat, disps: seq<int>, unit: int): Datatype {
    if disps == [] || length == 0 then NULL_COPY else Separate(elem, Same(|disps|, length), disps, unit, |disps|)
  }

  ghost predicate IndexedSame(elem: Datatype, lengths: seq<nat>, disps: seq<int>, unit: int, step: int) {
    |lengths| == |disps| ==> Indexed(elem, lengths, disps, unit, step) == IndexedOneByOne(elem, lengths, disps, unit)
  }

  ghost predicate BlockSame(elem: Datatype, length: nat, disps: seq<int>, unit: int, step: int) {
    IndexedBlock(elem, length, disps, unit, step) == IndexedBlockOneByOne(elem, length, disps, unit)
  }

  /** A displacement in elements that the machine can hold where the type begins. */
  ghost predicate InReach(elem: Datatype, lengths: seq<nat>, disps: seq<int>) {
    |lengths| == |disps| ==> Anchored(elem, lengths, disps, Extent(elem))
  }

  ghost predicate SameInReach(elem: Datatype, length: nat, disps: seq<int>) {
    InReach(elem, Same(|disps|, length), disps) ==> BlockSame(elem, length, disps, Extent(elem), 1)
  }

  /** Some blocks of one element each at byte displacements that merging changes. */
  lemma BytesDiffer(elem: Datatype) returns (disps: seq<int>)
    requires Bounded(elem) && !Plain(elem)
    ensures disps != [] && var ones := Same(|disps|, 1);
            Merged(elem, ones, disps, 1, Extent(elem), |disps|).ub < Separate(elem, ones, disps, 1, |disps|).ub
  {
    var e := Extent(elem);
    if Even(elem) {
      TripleDiffers(elem);
      disps := [0, 1, 1 + e];
      assert Same(3, 1) == [1, 1, 1];
    } else {
      PairDiffers(elem, 1, e);
      disps := [0, e];
      assert Same(2, 1) == [1, 1];
    }
  }

  /** A four-byte integer resized to be one byte long, backwards. */
  const BACKWARDS := Resize(Datatype([Entry(0, 0)], 0, 4, false, false, 4), 0, -1)

  lemma BackwardsPair(elem: Datatype, lengths: seq<nat>, disps: seq<int>)
    requires elem == BACKWARDS && lengths == [1, 1] && disps == [0, -1]
    ensures Indexed(elem, lengths, disps, 1, Extent(elem)).ub == -1 && IndexedOneByOne(elem, lengths, disps, 1).ub == 7
  {
    assert lengths[0] == 1;
    TwoBlocks(elem, disps, 1, -1);
    var one := Add(EMPTY, elem, 1, 0, -1);
    assert BoundsOfCopies(elem, 1, 0, -1) == (0, -1) && BoundsOfCopies(elem, 1, -1, -1) == (-1, -2);
    assert one.lb == 0 && one.ub == 4 && one.align == 4;
    assert BoundsOfCopies(elem, 2, 0, -1) == (-1, -1);
  }

  /** hindexed merges blocks without changing the type, for all blocks, exactly when the
      type is plain or has no data. */
  lemma HindexedIffPlain(elem: Datatype)
    requires Bounded(elem)
    ensures (forall lengths: seq<nat>, disps :: IndexedSame(elem, lengths, disps, 1, Extent(elem))) <==> Plain(elem) || elem.entries == []
  {
    if Plain(elem) || elem.entries == [] {
      forall lengths: seq<nat>, disps
        ensures IndexedSame(elem, lengths, disps, 1, Extent(elem))
      {
        if |lengths| == |disps| && elem.entries != [] {
          MergedIsSeparate(elem, lengths, disps, 1, Extent(elem), |lengths|);
        }
      }
    } else {
      var disps := BytesDiffer(elem);
      assert Same(|disps|, 1)[0] == 1;
      assert !IndexedSame(elem, Same(|disps|, 1), disps, 1, Extent(elem));
    }
  }

  lemma HindexedBlockIffPlain(elem: Datatype)
    requires Bounded(elem)
    ensures (forall length: nat, disps :: BlockSame(elem, length, disps, 1, Extent(elem))) <==> Plain(elem)
  {
    if Plain(elem) {
      forall length: nat, disps
        ensures BlockSame(elem, length, disps, 1, Extent(elem))
      {
        MergedIsSeparate(elem, Same(|disps|, length), disps, 1, Extent(elem), |disps|);
      }
    } else {
      var disps := BytesDiffer(elem);
      assert !BlockSame(elem, 1, disps, 1, Extent(elem));
    }
  }

  /** indexed merges blocks without changing the type exactly when the type is even or has no data. */
  lemma IndexedIffEven(elem: Datatype)
    requires Bounded(elem)
    ensures (forall lengths: seq<nat>, disps :: InReach(elem, lengths, disps) ==> IndexedSame(elem, lengths, disps, Extent(elem), 1))
            <==> Even(elem) || elem.entries == []
  {
    if Even(elem) || elem.entries == [] {
      forall lengths: seq<nat>, disps | InReach(elem, lengths, disps)
        ensures IndexedSame(elem, lengths, disps, Extent(elem), 1)
      {
        if |lengths| == |disps| && elem.entries != [] {
          MergedIsSeparate(elem, lengths, disps, Extent(elem), 1, |lengths|);
        }
      }
    } else {
      PairDiffers(elem, Extent(elem), 1);
      var ones: seq<nat> := [1, 1];
      PairInReach(elem);
      assert !IndexedSame(elem, ones, [0, 1], Extent(elem), 1);
    }
  }

  lemma PairInReach(elem: Datatype)
    requires Bounded(elem)
    ensures InReach(elem, [1, 1], [0, 1])
  {
    var ones: seq<nat>, disps, e := [1, 1], [0, 1], Extent(elem);
    assert BoundsOfCopies(elem, 1, 0, e) == (elem.lb, elem.ub);
    assert ones[0] == 1 && disps[0] * e == 0;
    assert forall i: nat :: First(ones, i) ==> i == 0;
  }

  lemma IndexedBlockIffEven(elem: Datatype)
    requires Bounded(elem)
    ensures (forall length: nat, disps :: SameInReach(elem, length, disps)) <==> Even(elem)
  {
    if Even(elem) {
      forall length: nat, disps
        ensures SameInReach(elem, length, disps)
      {
        if InReach(elem, Same(|disps|, length), disps) {
          MergedIsSeparate(elem, Same(|disps|, length), disps, Extent(elem), 1, |disps|);
        }
      }
    } else {
      PairDiffers(elem, Extent(elem), 1);
      PairInReach(elem);
      assert Same(2, 1) == [1, 1];
      assert !SameInReach(elem, 1, [0, 1]);
    }
  }
}
