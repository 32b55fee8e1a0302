/** The packed description of a datatype (ompi/datatype/ompi_datatype_args.c): what
    the bytes of the description of a datatype tree are. */
module PackLayout {
  import opened Bytes
  import opened PackMemory

  /** How a datatype was made: a predefined one, a duplicate, or a combiner with
      its integer, displacement and datatype arguments. */
  datatype Desc =
    | Named(id: nat)
    | Dup(of: Desc)
    | Node(combiner: nat, ints: seq<int>, disps: seq<int>, kids: seq<Desc>)

  const MAX_PREDEFINED := 47

  const NAMED := 0
  const DUP := 1
  const CONTIGUOUS := 2
  const VECTOR := 3
  const HVECTOR_INTEGER := 4
  const HVECTOR := 5
  const INDEXED := 6
  const HINDEXED_INTEGER := 7
  const HINDEXED := 8
  const INDEXED_BLOCK := 9
  const STRUCT_INTEGER := 10
  const STRUCT := 11
  const SUBARRAY := 12
  const DARRAY := 13
  const RESIZED := 17
  const HINDEXED_BLOCK := 18

  /** How many arguments of each kind a rebuildable combiner has. */
  predicate Shaped(combiner: nat, ints: seq<int>, ca: nat, cd: nat) {
    if combiner == CONTIGUOUS then |ints| == 1 && ca == 0 && cd == 1
    else if combiner == VECTOR then |ints| == 3 && ca == 0 && cd == 1
    else if combiner == HVECTOR || combiner == HVECTOR_INTEGER then |ints| == 2 && ca == 1 && cd == 1
    else if combiner == INDEXED then |ints| >= 1 && ints[0] >= 0 && |ints| == 2 * ints[0] + 1 && ca == 0 && cd == 1
    else if combiner == HINDEXED || combiner == HINDEXED_INTEGER then |ints| >= 1 && |ints| == ints[0] + 1 && ca == ints[0] && cd == 1
    else if combiner == INDEXED_BLOCK then |ints| >= 2 && |ints| == ints[0] + 2 && ca == 0 && cd == 1
    else if combiner == STRUCT || combiner == STRUCT_INTEGER then |ints| >= 1 && |ints| == ints[0] + 1 && ca == ints[0] && cd == ints[0]
    else if combiner == SUBARRAY then |ints| >= 1 && ints[0] >= 0 && |ints| == 3 * ints[0] + 2 && ca == 0 && cd == 1
    else if combiner == DARRAY then |ints| >= 3 && ints[2] >= 0 && |ints| == 4 * ints[2] + 4 && ca == 0 && cd == 1
    else if combiner == RESIZED then |ints| == 0 && ca == 2 && cd == 1
    else if combiner == HINDEXED_BLOCK then |ints| == 2 && ints[0] >= 0 && ca == ints[0] && cd == 1
    else false
  }

  /** A datatype that the constructors could have made. */
  predicate WellFormed(d: Desc) {
    match d
    case Named(id) => id < MAX_PREDEFINED
    case Dup(of) => WellFormed(of)
    case Node(combiner, ints, disps, kids) =>
      && Shaped(combiner, ints, |disps|, |kids|)
      && |ints| <= INT_MAX && |disps| <= INT_MAX && |kids| <= INT_MAX
      && AllFit(ints, 4) && AllFit(disps, 8)
      && forall i :: 0 <= i < |kids| ==> WellFormed(kids[i])
  }

  // -------------------------------------------------------------------- where things go

  /** The next multiple of 8, on machines that align their words. */
  function AlignUp(p: nat, align: bool): (q: nat)
    ensures p <= q
  {
    if align then (p + 7) / 8 * 8 else p
  }

  function DispsPos(d: Desc, pos: nat, align: bool): nat
    requires d.Node?
  {
    if |d.disps| > 0 then AlignUp(pos + 16, align) else pos + 16
  }

  function SlotsPos(d: Desc, pos: nat, align: bool): nat
    requires d.Node?
  {
    DispsPos(d, pos, align) + 8 * |d.disps|
  }

  function IntsPos(d: Desc, pos: nat, align: bool): nat
    requires d.Node?
  {
    SlotsPos(d, pos, align) + 4 * |d.kids|
  }

  function KidsPos(d: Desc, pos: nat, align: bool): nat
    requires d.Node?
  {
    IntsPos(d, pos, align) + 4 * |d.ints|
  }

  /** Where the description of `d` that starts at `pos` ends. */
  function End(d: Desc, pos: nat, align: bool): (e: nat)
    ensures e >= pos
    decreases d
  {
    match d
    case Named(_) => pos + 8
    case Dup(of) => End(of, pos, align)
    case Node(_, _, _, kids) => KidsEnd(kids, |kids|, KidsPos(d, pos, align), align)
  }

  /** Where the first `n` children end; predefined ones have no description of their own. */
  function KidsEnd(kids: seq<Desc>, n: nat, pos: nat, align: bool): (e: nat)
    requires n <= |kids|
    ensures e >= pos
    decreases kids, n
  {
    if n == 0 then pos
    else
      var p := KidsEnd(kids, n - 1, pos, align);
      if kids[n - 1].Named? then p else End(kids[n - 1], p, align)
  }

  // ------------------------------------------------------------------------ the bytes

  /** The entry for a child: its id, or a number that is no predefined datatype's. */
  ghost predicate SlotAt(buf: seq<byte>, p: nat, kid: Desc, big: bool) {
    && p + 4 <= |buf|
    && if kid.Named? then Load(buf, p, 4) == Word(kid.id, 4, big) else Signed(Load(buf, p, 4), big) >= MAX_PREDEFINED
  }

  ghost predicate SlotsAt(buf: seq<byte>, p: nat, kids: seq<Desc>, n: nat, big: bool)
    requires n <= |kids|
  {
    forall i :: 0 <= i < n ==> SlotAt(buf, p + 4 * i, kids[i], big)
  }

  function Header(d: Desc): seq<int>
    requires d.Node?
  {
    [d.combiner, |d.ints|, |d.disps|, |d.kids|]
  }

  /** The header, the displacements and the integers of a combiner. */
  ghost predicate HeadAt(buf: seq<byte>, pos: nat, d: Desc, big: bool, align: bool)
    requires d.Node?
  {
    && WordsAt(buf, pos, Header(d), 4, big)
    && WordsAt(buf, DispsPos(d, pos, align), d.disps, 8, big)
    && WordsAt(buf, IntsPos(d, pos, align), d.ints, 4, big)
  }

  /** `pos` is where a description of `d` starts, in byte order `big`. */
  ghost predicate DescAt(buf: seq<byte>, pos: nat, d: Desc, big: bool, align: bool)
    decreases d
  {
    match d
    case Named(id) => WordsAt(buf, pos, [NAMED, id], 4, big)
    case Dup(of) => DescAt(buf, pos, of, big, align)
    case Node(_, _, _, kids) =>
      && HeadAt(buf, pos, d, big, align)
      && SlotsAt(buf, SlotsPos(d, pos, align), kids, |kids|, big)
      && KidsAt(buf, kids, |kids|, KidsPos(d, pos, align), big, align)
  }

  ghost predicate KidsAt(buf: seq<byte>, kids: seq<Desc>, n: nat, pos: nat, big: bool, align: bool)
    requires n <= |kids|
    decreases kids, n
  {
    n == 0
    || (KidsAt(buf, kids, n - 1, pos, big, align)
        && (kids[n - 1].Named? || DescAt(buf, KidsEnd(kids, n - 1, pos, align), kids[n - 1], big, align)))
  }

  lemma TailSlice(a: seq<byte>, rest: seq<byte>, q: nat, w: nat)
    requires q + w <= |rest|
    ensures (a + rest)[|a| + q..|a| + q + w] == rest[q..q + w]
  {
    var x, y := (a + rest)[|a| + q..|a| + q + w], rest[q..q + w];
    assert |x| == |y| && forall i :: 0 <= i < w ==> x[i] == y[i];
  }

  lemma {:induction false} WordOf(vs: seq<int>, w: nat, big: bool, i: nat, p: nat)
    requires i < |vs| && p == w * i
    ensures p + w <= |Words(vs, w, big)| && Words(vs, w, big)[p..p + w] == Word(vs[i], w, big)
  {
    var first, rest := Word(vs[0], w, big), Words(vs[1..], w, big);
    if i > 0 {
      assert w * i == w * (i - 1) + w;
      WordOf(vs[1..], w, big, i - 1, p - w);
      TailSlice(first, rest, p - w, w);
    } else {
      assert (first + rest)[..w] == first;
    }
  }

  lemma SliceOfSlice(buf: seq<byte>, p: nat, n: nat, q: nat, w: nat)
    requires p + n <= |buf| && q + w <= n
    ensures buf[p..p + n][q..q + w] == buf[p + q..p + q + w]
  {
    var a, b := buf[p..p + n][q..q + w], buf[p + q..p + q + w];
    assert |a| == |b| && forall i :: 0 <= i < w ==> a[i] == b[i];
  }

  lemma WordAt(buf: seq<byte>, p: nat, vs: seq<int>, w: nat, big: bool, i: nat, q: nat)
    requires WordsAt(buf, p, vs, w, big) && i < |vs| && q == w * i
    ensures p + q + w <= |buf| && Load(buf, p + q, w) == Word(vs[i], w, big)
  {
    WordOf(vs, w, big, i, q);
    SliceOfSlice(buf, p, |Words(vs, w, big)|, q, w);
  }

  /** Where a combiner's header ends and its displacements may begin. */
  function Rounded16(pos: nat, aligned: bool): nat {
    if aligned && pos % 8 != 0 then pos + 16 + (8 - pos % 8) else pos + 16
  }

  /** A description begins with its combiner and the numbers of its arguments. */
  lemma HeaderFields(buf: seq<byte>, pos: nat, d: Desc, big: bool, align: bool)
    requires d.Node? && HeadAt(buf, pos, d, big, align)
    ensures pos + 16 <= |buf| && Load(buf, pos, 4) == Word(d.combiner, 4, big) && Load(buf, pos + 4, 4) == Word(|d.ints|, 4, big)
    ensures Load(buf, pos + 8, 4) == Word(|d.disps|, 4, big) && Load(buf, pos + 12, 4) == Word(|d.kids|, 4, big)
  {
    WordAt(buf, pos, Header(d), 4, big, 0, 0);
    WordAt(buf, pos, Header(d), 4, big, 1, 4);
    WordAt(buf, pos, Header(d), 4, big, 2, 8);
    WordAt(buf, pos, Header(d), 4, big, 3, 12);
  }

  /** The displacements follow, from the next multiple of 8 on. */
  lemma DispOffset(buf: seq<byte>, pos: nat, d: Desc, big: bool, align: bool, i: nat, p: nat)
    requires d.Node? && HeadAt(buf, pos, d, big, align) && i < |d.disps| && p == Rounded16(pos, align) + 8 * i
    ensures p + 8 <= |buf| && Load(buf, p, 8) == Word(d.disps[i], 8, big)
  {
    RoundedPlace(pos);
    WordAt(buf, DispsPos(d, pos, align), d.disps, 8, big, i, 8 * i);
  }

  /** Where the entries of the children are: behind the displacements, or the header if there are none. */
  function Entries(pos: nat, disps: nat, align: bool): nat {
    if disps > 0 then Rounded16(pos, align) + 8 * disps else pos + 16
  }

  lemma EntryOffset(buf: seq<byte>, pos: nat, d: Desc, big: bool, align: bool, i: nat, p: nat)
    requires d.Node? && SlotsAt(buf, SlotsPos(d, pos, align), d.kids, |d.kids|, big)
    requires i < |d.kids| && d.kids[i].Named? && p == Entries(pos, |d.disps|, align) + 4 * i
    ensures p + 4 <= |buf| && Load(buf, p, 4) == Word(d.kids[i].id, 4, big)
  {
    RoundedPlace(pos);
    assert SlotAt(buf, SlotsPos(d, pos, align) + 4 * i, d.kids[i], big);
  }

  /** The integers come last. */
  lemma IntOffset(buf: seq<byte>, pos: nat, d: Desc, big: bool, align: bool, i: nat, p: nat)
    requires d.Node? && HeadAt(buf, pos, d, big, align)
    requires i < |d.ints| && p == Entries(pos, |d.disps|, align) + 4 * |d.kids| + 4 * i
    ensures p + 4 <= |buf| && Load(buf, p, 4) == Word(d.ints[i], 4, big)
  {
    RoundedPlace(pos);
    WordAt(buf, IntsPos(d, pos, align), d.ints, 4, big, i, 4 * i);
  }

  lemma RoundedPlace(pos: nat)
    ensures AlignUp(pos + 16, true) == Rounded16(pos, true)
  {
  }

  // --------------------------------------------------------- nothing else matters to it

  lemma WordsAtSame(buf: seq<byte>, buf': seq<byte>, lo: nat, hi: nat, p: nat, vs: seq<int>, w: nat, big: bool)
    requires WordsAt(buf, p, vs, w, big) && Same(buf, buf', lo, hi) && lo <= p && p + w * |vs| <= hi
    ensures WordsAt(buf', p, vs, w, big)
  {
    LoadSame(buf, buf', lo, hi, p, w * |vs|);
  }

  lemma HeadSame(buf: seq<byte>, buf': seq<byte>, lo: nat, pos: nat, d: Desc, big: bool, align: bool)
    requires d.Node? && HeadAt(buf, pos, d, big, align) && lo <= pos && Same(buf, buf', lo, KidsPos(d, pos, align))
    ensures HeadAt(buf', pos, d, big, align)
  {
    var hi := KidsPos(d, pos, align);
    WordsAtSame(buf, buf', lo, hi, pos, Header(d), 4, big);
    WordsAtSame(buf, buf', lo, hi, DispsPos(d, pos, align), d.disps, 8, big);
    WordsAtSame(buf, buf', lo, hi, IntsPos(d, pos, align), d.ints, 4, big);
  }

  lemma SlotSame(buf: seq<byte>, buf': seq<byte>, lo: nat, hi: nat, p: nat, kid: Desc, big: bool)
    requires SlotAt(buf, p, kid, big) && Same(buf, buf', lo, hi) && lo <= p && p + 4 <= hi
    ensures SlotAt(buf', p, kid, big)
  {
    LoadSame(buf, buf', lo, hi, p, 4);
  }

  lemma SlotsSame(buf: seq<byte>, buf': seq<byte>, lo: nat, hi: nat, p: nat, kids: seq<Desc>, n: nat, big: bool)
    requires n <= |kids| && SlotsAt(buf, p, kids, n, big) && Same(buf, buf', lo, hi) && lo <= p && p + 4 * n <= hi
    ensures SlotsAt(buf', p, kids, n, big)
  {
    forall i | 0 <= i < n
      ensures SlotAt(buf', p + 4 * i, kids[i], big)
    {
      SlotSame(buf, buf', lo, hi, p + 4 * i, kids[i], big);
    }
  }

  lemma {:induction false} DescSame(buf: seq<byte>, buf': seq<byte>, lo: nat, pos: nat, d: Desc, big: bool, align: bool)
    requires DescAt(buf, pos, d, big, align) && lo <= pos && Same(buf, buf', lo, End(d, pos, align))
    ensures DescAt(buf', pos, d, big, align)
    decreases d
  {
    match d
    case Named(id) => WordsAtSame(buf, buf', lo, pos + 8, pos, [NAMED, id], 4, big);
    case Dup(of) => DescSame(buf, buf', lo, pos, of, big, align);
    case Node(_, _, _, kids) =>
      HeadSame(buf, buf', lo, pos, d, big, align);
      SlotsSame(buf, buf', lo, End(d, pos, align), SlotsPos(d, pos, align), kids, |kids|, big);
      KidsSame(buf, buf', lo, kids, |kids|, KidsPos(d, pos, align), big, align);
  }

  lemma {:induction false} KidsSame(buf: seq<byte>, buf': seq<byte>, lo: nat, kids: seq<Desc>, n: nat, pos: nat, big: bool, align: bool)
    requires n <= |kids| && KidsAt(buf, kids, n, pos, big, align) && lo <= pos && Same(buf, buf', lo, KidsEnd(kids, n, pos, align))
    ensures KidsAt(buf', kids, n, pos, big, align)
    decreases kids, n
  {
    if n > 0 {
      KidsSame(buf, buf', lo, kids, n - 1, pos, big, align);
      if !kids[n - 1].Named? {
        DescSame(buf, buf', lo, KidsEnd(kids, n - 1, pos, align), kids[n - 1], big, align);
      }
    }
  }
}
