/** ompi/class/ompi_seq_tracker.c: the sequence numbers seen so far, as a list of
    ranges with a cursor at the last place looked at. */
module SeqTracker {

  const UINT32 := 0x1_0000_0000
  const UINT32_MAX := 0xffff_ffff

  datatype Range = Range(low: nat, high: nat)

  predicate Covers(r: Range, x: nat) {
    r.low <= x <= r.high
  }

  predicate Has(ranges: seq<Range>, x: nat) {
    exists i :: 0 <= i < |ranges| && Covers(ranges[i], x)
  }

  /** Sorted, disjoint and not adjacent; the largest 32-bit number is not in use. */
  ghost predicate Canonical(ranges: seq<Range>) {
    && (forall i :: 0 <= i < |ranges| ==> ranges[i].low <= ranges[i].high < UINT32_MAX)
    && (forall i, j :: 0 <= i < j < |ranges| ==> ranges[i].high + 1 < ranges[j].low)
  }

  /** 32-bit arithmetic wraps around. */
  function Plus1(x: nat): nat {
    (x + 1) % UINT32
  }

  function Minus1(x: nat): nat {
    (x + UINT32 - 1) % UINT32
  }

  // -------------------------------------------------------------------- the list

  /** `r` in place of the ranges from `a` up to `b`. */
  function Splice(ranges: seq<Range>, a: nat, b: nat, r: Range): (s: seq<Range>)
    requires a <= b <= |ranges|
    ensures |s| == |ranges| - (b - a) + 1
  {
    ranges[..a] + [r] + ranges[b..]
  }

  lemma SpliceCanonical(ranges: seq<Range>, a: nat, b: nat, r: Range)
    requires a <= b <= |ranges| && Canonical(ranges) && r.low <= r.high < UINT32_MAX
    requires a > 0 ==> ranges[a - 1].high + 1 < r.low
    requires b < |ranges| ==> r.high + 1 < ranges[b].low
    ensures Canonical(Splice(ranges, a, b, r))
  {
    var s := Splice(ranges, a, b, r);
    forall i | 0 <= i < |s|
      ensures i < a ==> s[i] == ranges[i] && s[i].high + 1 < r.low
      ensures i == a ==> s[i] == r
      ensures i > a ==> s[i] == ranges[i - 1 - a + b] && r.high + 1 < s[i].low
    {
    }
  }

  /** What a splice adds is `x`, when the new range holds `x` and what the replaced ones hold. */
  lemma SpliceHas(ranges: seq<Range>, a: nat, b: nat, r: Range, x: nat, y: nat)
    requires a <= b <= |ranges|
    requires Covers(r, y) <==> y == x || exists k :: a <= k < b && Covers(ranges[k], y)
    ensures Has(Splice(ranges, a, b, r), y) <==> y == x || Has(ranges, y)
  {
    var s := Splice(ranges, a, b, r);
    if Has(s, y) {
      var i :| 0 <= i < |s| && Covers(s[i], y);
      if i < a {
        assert Covers(ranges[i], y);
      } else if i > a {
        assert Covers(ranges[i - 1 - a + b], y);
      }
    }
    if Has(ranges, y) {
      var i :| 0 <= i < |ranges| && Covers(ranges[i], y);
      if i < a {
        assert Covers(s[i], y);
      } else if i < b {
        assert Covers(s[a], y);
      } else {
        assert Covers(s[i - b + a + 1], y);
      }
    }
    if y == x {
      assert Covers(s[a], y);
    }
  }

  ghost predicate Adds(ranges: seq<Range>, ranges': seq<Range>, x: nat) {
    forall y: nat :: Has(ranges', y) <==> y == x || Has(ranges, y)
  }

  /** A new range of its own between two others. */
  lemma Separate(ranges: seq<Range>, p: nat, x: nat)
    requires p <= |ranges| && Canonical(ranges) && x < UINT32_MAX
    requires p > 0 ==> ranges[p - 1].high + 1 < x
    requires p < |ranges| ==> x + 1 < ranges[p].low
    ensures var s := Splice(ranges, p, p, Range(x, x)); Canonical(s) && Adds(ranges, s, x)
  {
    SpliceCanonical(ranges, p, p, Range(x, x));
    forall y: nat
      ensures Has(Splice(ranges, p, p, Range(x, x)), y) <==> y == x || Has(ranges, y)
    {
      SpliceHas(ranges, p, p, Range(x, x), x, y);
    }
  }

  /** A range made longer by one. */
  lemma Extend(ranges: seq<Range>, i: nat, r: Range, x: nat)
    requires i < |ranges| && Canonical(ranges) && x < UINT32_MAX
    requires (x == ranges[i].high + 1 && r == Range(ranges[i].low, x)) || (x + 1 == ranges[i].low && r == Range(x, ranges[i].high))
    requires i > 0 ==> ranges[i - 1].high + 1 < r.low
    requires i + 1 < |ranges| ==> r.high + 1 < ranges[i + 1].low
    ensures var s := Splice(ranges, i, i + 1, r); Canonical(s) && Adds(ranges, s, x)
  {
    SpliceCanonical(ranges, i, i + 1, r);
    forall y: nat
      ensures Has(Splice(ranges, i, i + 1, r), y) <==> y == x || Has(ranges, y)
    {
      assert Covers(r, y) <==> y == x || Covers(ranges[i], y);
      SpliceHas(ranges, i, i + 1, r, x, y);
    }
  }

  /** Two ranges joined by the number between them. */
  lemma Join(ranges: seq<Range>, i: nat, x: nat)
    requires i + 1 < |ranges| && Canonical(ranges) && ranges[i].high + 1 == x == ranges[i + 1].low - 1
    ensures var s := Splice(ranges, i, i + 2, Range(ranges[i].low, ranges[i + 1].high)); Canonical(s) && Adds(ranges, s, x)
  {
    var r := Range(ranges[i].low, ranges[i + 1].high);
    var s := Splice(ranges, i, i + 2, r);
    SpliceCanonical(ranges, i, i + 2, r);
    forall y: nat
      ensures Has(s, y) <==> y == x || Has(ranges, y)
    {
      assert Covers(r, y) <==> y == x || Covers(ranges[i], y) || Covers(ranges[i + 1], y);
      assert Covers(r, y) <==> y == x || exists k :: i <= k < i + 2 && Covers(ranges[k], y);
      SpliceHas(ranges, i, i + 2, r, x, y);
    }
  }

  /** Not in a range before `p`, nor in one from `p` on. */
  lemma Gap(ranges: seq<Range>, p: nat, x: nat)
    requires Canonical(ranges) && p <= |ranges|
    requires p > 0 ==> ranges[p - 1].high < x
    requires p < |ranges| ==> x < ranges[p].low
    ensures !Has(ranges, x)
  {
  }

  // ------------------------------------------------------------------- uniqueness

  /** The canonical list of a set of numbers is unique. */
  lemma {:induction false} CanonicalUnique(a: seq<Range>, b: seq<Range>)
    requires Canonical(a) && Canonical(b) && forall x: nat :: Has(a, x) <==> Has(b, x)
    ensures a == b
  {
    if a == [] || b == [] {
      NoRanges(a, b);
      NoRanges(b, a);
    } else {
      FirstLow(a, b);
      FirstLow(b, a);
      FirstHigh(a, b);
      FirstHigh(b, a);
      forall x: nat
        ensures Has(a[1..], x) <==> Has(b[1..], x)
      {
        TailHas(a, x);
        TailHas(b, x);
      }
      CanonicalUnique(a[1..], b[1..]);
      assert a == [a[0]] + a[1..] && b == [b[0]] + b[1..];
    }
  }

  lemma NoRanges(a: seq<Range>, b: seq<Range>)
    requires Canonical(b) && forall x: nat :: Has(a, x) <==> Has(b, x)
    ensures a == [] ==> b == []
  {
    if b != [] {
      assert Covers(b[0], b[0].low);
      assert Has(b, b[0].low);
    }
  }

  lemma FirstLow(a: seq<Range>, b: seq<Range>)
    requires Canonical(a) && Canonical(b) && a != [] && b != [] && forall x: nat :: Has(a, x) <==> Has(b, x)
    ensures b[0].low <= a[0].low
  {
    assert Covers(a[0], a[0].low);
    assert Has(b, a[0].low);
  }

  lemma FirstHigh(a: seq<Range>, b: seq<Range>)
    requires Canonical(a) && Canonical(b) && a != [] && b != [] && forall x: nat :: Has(a, x) <==> Has(b, x)
    requires a[0].low == b[0].low
    ensures a[0].high <= b[0].high
  {
    Gap(b, 1, b[0].high + 1);
    assert !Covers(a[0], b[0].high + 1);
  }

  lemma TailHas(a: seq<Range>, x: nat)
    requires Canonical(a) && a != []
    ensures Has(a[1..], x) <==> Has(a, x) && x > a[0].high
  {
    if Has(a[1..], x) {
      var i :| 0 <= i < |a[1..]| && Covers(a[1..][i], x);
      assert Covers(a[i + 1], x);
    }
    if Has(a, x) && x > a[0].high {
      var i :| 0 <= i < |a| && Covers(a[i], x);
      assert Covers(a[1..][i - 1], x);
    }
  }

  // ---------------------------------------------------------------------- the walks

  /** ompi_seq_tracker_check_duplicate: `cursor` moves only when the number is found. */
  method CheckDuplicate(ranges: seq<Range>, cursor: int, x: nat) returns (found: bool, cursor': int)
    requires Canonical(ranges) && (0 <= cursor < |ranges| || ranges == [])
    ensures found <==> Has(ranges, x)
    ensures if found then 0 <= cursor' < |ranges| && Covers(ranges[cursor'], x) else cursor' == cursor
  {
    var item, direction := cursor, 0;
    while true
      invariant direction == 0 ==> item == cursor
      invariant direction == 1 ==> 1 <= item <= |ranges| && ranges[item - 1].high < x
      invariant direction == -1 ==> -1 <= item < |ranges| - 1 && x < ranges[item + 1].low
      invariant direction == 0 || direction == 1 || direction == -1
      decreases if direction == 0 then |ranges| + 2 else if direction == 1 then |ranges| - item else item + 1
    {
      if item < 0 || item >= |ranges| {
        if direction != 0 {
          Gap(ranges, if direction == -1 then 0 else |ranges|, x);
        }
        return false, cursor;
      } else if ranges[item].high >= x && ranges[item].low <= x {
        assert Covers(ranges[item], x);
        return true, item;
      } else if x > ranges[item].high && direction != -1 {
        direction, item := 1, item + 1;
      } else if x < ranges[item].low && direction != 1 {
        direction, item := -1, item - 1;
      } else {
        Gap(ranges, if direction == -1 then item + 1 else item, x);
        return false, cursor;
      }
    }
  }

  /** The range at `item` takes the number after it, and joins the next range if it then touches it. */
  method GrowUp(ranges: seq<Range>, item: nat, x: nat) returns (r: seq<Range>)
    requires Canonical(ranges) && item < |ranges| && x == ranges[item].high + 1 < UINT32_MAX
    ensures Canonical(r) && Adds(ranges, r, x) && item < |r| && Covers(r[item], x)
  {
    if item + 1 < |ranges| && ranges[item + 1].low == Plus1(x) {
      Join(ranges, item, x);
      r := Splice(ranges, item, item + 2, Range(ranges[item].low, ranges[item + 1].high));
    } else {
      Extend(ranges, item, Range(ranges[item].low, x), x);
      r := Splice(ranges, item, item + 1, Range(ranges[item].low, x));
    }
  }

  /** The range at `item` takes the number before it, and joins the previous range if it then touches it. */
  method GrowDown(ranges: seq<Range>, item: nat, x: nat) returns (r: seq<Range>, item': nat)
    requires Canonical(ranges) && item < |ranges| && x + 1 == ranges[item].low
    ensures Canonical(r) && Adds(ranges, r, x) && item' < |r| && Covers(r[item'], x)
  {
    if item > 0 && ranges[item - 1].high == Minus1(x) {
      Join(ranges, item - 1, x);
      r := Splice(ranges, item - 1, item + 1, Range(ranges[item - 1].low, ranges[item].high));
      item' := item - 1;
    } else {
      Extend(ranges, item, Range(x, ranges[item].high), x);
      r := Splice(ranges, item, item + 1, Range(x, ranges[item].high));
      item' := item;
    }
  }

  method NewRange(ranges: seq<Range>, p: nat, x: nat) returns (r: seq<Range>)
    requires p <= |ranges| && Canonical(ranges) && x < UINT32_MAX
    requires p > 0 ==> ranges[p - 1].high + 1 < x
    requires p < |ranges| ==> x + 1 < ranges[p].low
    ensures Canonical(r) && Adds(ranges, r, x) && p < |r| && Covers(r[p], x)
  {
    Separate(ranges, p, x);
    r := Splice(ranges, p, p, Range(x, x));
  }

  lemma AlreadyThere(ranges: seq<Range>, item: nat, x: nat)
    requires item < |ranges| && Covers(ranges[item], x)
    ensures Adds(ranges, ranges, x)
  {
  }

  /** ompi_seq_tracker_insert, from any place in the list. */
  method Insert(ranges: seq<Range>, cursor: int, x: nat) returns (r: seq<Range>, cursor': int)
    requires Canonical(ranges) && (0 <= cursor < |ranges| || ranges == []) && x < UINT32_MAX
    ensures Canonical(r) && Adds(ranges, r, x) && 0 <= cursor' < |r| && Covers(r[cursor'], x)
  {
    var item, direction := cursor, 0;
    while true
      invariant direction == 0 ==> item == cursor
      invariant direction == 1 ==> 1 <= item <= |ranges| && ranges[item - 1].high + 1 < x
      invariant direction == -1 ==> -1 <= item < |ranges| - 1 && x + 1 < ranges[item + 1].low
      invariant direction == 0 || direction == 1 || direction == -1
      decreases if direction == 0 then |ranges| + 2 else if direction == 1 then |ranges| - item else item + 1
    {
      if item < 0 || item >= |ranges| {
        if direction == -1 {
          r := NewRange(ranges, 0, x);
          return r, 0;
        } else {
          r := NewRange(ranges, |ranges|, x);
          return r, |ranges|;
        }
      } else if ranges[item].high >= x && ranges[item].low <= x {
        AlreadyThere(ranges, item, x);
        return ranges, item;
      } else if Plus1(ranges[item].high) == x {
        r := GrowUp(ranges, item, x);
        return r, item;
      } else if Minus1(ranges[item].low) == x {
        r, cursor' := GrowDown(ranges, item, x);
        return;
      } else if x > ranges[item].high {
        if direction == -1 {
          r := NewRange(ranges, item + 1, x);
          return r, item + 1;
        } else {
          direction, item := 1, item + 1;
        }
      } else {
        if direction == 1 {
          r := NewRange(ranges, item, x);
          return r, item;
        } else {
          direction, item := -1, item - 1;
        }
      }
    }
  }

  // --------------------------------------------------------------------- the object

  datatype Op = Lookup(id: nat) | Record(id: nat)

  /** What a plain set answers to the lookups in a series of operations. */
  function Answers(ops: seq<Op>, seen: set<nat>): seq<bool> {
    if ops == [] then []
    else match ops[0]
      case Lookup(x) => [x in seen] + Answers(ops[1..], seen)
      case Record(x) => Answers(ops[1..], seen + {x})
  }

  function Recorded(ops: seq<Op>, seen: set<nat>): set<nat> {
    if ops == [] then seen
    else match ops[0]
      case Lookup(_) => Recorded(ops[1..], seen)
      case Record(x) => Recorded(ops[1..], seen + {x})
  }

  class Tracker {
    var ranges: seq<Range>
    var cursor: int
    /** The ids inserted so far. */
    ghost var seen: set<nat>

    ghost predicate Valid()
      reads this
    {
      && Canonical(ranges)
      && (0 <= cursor < |ranges| || ranges == [])
      && forall x: nat :: Has(ranges, x) <==> x in seen
    }

    constructor ()
      ensures Valid() && seen == {} && ranges == []
    {
      ranges, cursor, seen := [], 0, {};
    }

    method Check(x: nat) returns (found: bool)
      requires Valid()
      modifies this
      ensures Valid() && seen == old(seen) && ranges == old(ranges) && found == (x in seen)
      ensures if found then 0 <= cursor < |ranges| && Covers(ranges[cursor], x) else cursor == old(cursor)
    {
      found, cursor := CheckDuplicate(ranges, cursor, x);
    }

    method Add(x: nat)
      requires Valid() && x < UINT32_MAX
      modifies this
      ensures Valid() && seen == old(seen) + {x} && 0 <= cursor < |ranges| && Covers(ranges[cursor], x)
    {
      ranges, cursor := Insert(ranges, cursor, x);
      seen := seen + {x};
    }

    /** Every series of operations answers as a plain set does. */
    method Run(ops: seq<Op>) returns (answers: seq<bool>)
      requires Valid() && forall i :: 0 <= i < |ops| && ops[i].Record? ==> ops[i].id < UINT32_MAX
      modifies this
      ensures Valid() && answers == Answers(ops, old(seen)) && seen == Recorded(ops, old(seen))
    {
      answers := [];
      var i := 0;
      assert ops[0..] == ops;
      while i < |ops|
        invariant 0 <= i <= |ops| && Valid()
        invariant answers + Answers(ops[i..], seen) == Answers(ops, old(seen))
        invariant Recorded(ops[i..], seen) == Recorded(ops, old(seen))
      {
        assert ops[i..][1..] == ops[i + 1..];
        match ops[i] {
          case Lookup(x) =>
            ghost var rest := Answers(ops[i + 1..], seen);
            assert answers + ([x in seen] + rest) == (answers + [x in seen]) + rest;
            var found := Check(x);
            answers := answers + [found];
          case Record(x) => Add(x);
        }
        i := i + 1;
      }
    }

    /** ompi_seq_tracker_copy, into a tracker that has seen nothing. */
    method CopyFrom(src: Tracker)
      requires Valid() && ranges == [] && src.Valid() && src != this
      modifies this
      ensures Valid() && ranges == src.ranges && seen == src.seen && (ranges != [] ==> cursor == src.cursor)
    {
      var i := 0;
      while i < |src.ranges|
        invariant 0 <= i <= |src.ranges| && ranges == src.ranges[..i]
        invariant 0 <= src.cursor < i ==> cursor == src.cursor
      {
        ranges := ranges + [src.ranges[i]];
        if src.cursor == i {
          cursor := i;
        }
        i := i + 1;
      }
      seen := src.seen;
    }

    /** Two trackers that have seen the same ids hold the same list. */
    lemma SameSeen(other: Tracker)
      requires Valid() && other.Valid() && seen == other.seen
      ensures ranges == other.ranges
    {
      CanonicalUnique(ranges, other.ranges);
    }
  }
}
