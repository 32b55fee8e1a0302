/** __ompi_datatype_create_from_packed_description. */
module PackDecoder {
  import opened Bytes
  import opened PackMemory
  import opened PackLayout

  // ---------------------------------------------------------------- what comes back

  function NormalCombiner(combiner: nat): nat {
    if combiner == HVECTOR_INTEGER then HVECTOR
    else if combiner == HINDEXED_INTEGER then HINDEXED
    else if combiner == STRUCT_INTEGER then STRUCT
    else combiner
  }

  /** The same datatype without duplicates, and without the Fortran-only combiners. */
  function Normal(d: Desc): Desc {
    match d
    case Named(_) => d
    case Dup(of) => Normal(of)
    case Node(combiner, ints, disps, kids) =>
      Node(NormalCombiner(combiner), ints, disps, seq(|kids|, i requires 0 <= i < |kids| => Normal(kids[i])))
  }

  /** `d` without the duplicates around it. */
  ghost function Core(d: Desc): (c: Desc)
    ensures !c.Dup? && (c == d || c < d)
  {
    if d.Dup? then Core(d.of) else d
  }

  /** The duplicates around a datatype leave no trace in its description. */
  lemma {:induction false} CoreIsThere(buf: seq<byte>, pos: nat, d: Desc, big: bool, align: bool)
    requires WellFormed(d) && DescAt(buf, pos, d, big, align)
    ensures WellFormed(Core(d)) && DescAt(buf, pos, Core(d), big, align)
    ensures End(Core(d), pos, align) == End(d, pos, align) && Normal(Core(d)) == Normal(d)
  {
    if d.Dup? {
      CoreIsThere(buf, pos, d.of, big, align);
    }
  }

  // ------------------------------------------------------------------ the constructor

  lemma Whole<T>(s: seq<T>)
    ensures s[..|s|] == s
  {
  }

  lemma FewInts(i: seq<int>)
    ensures |i| == 1 ==> [i[0]] == i
    ensures |i| == 2 ==> [i[0], i[1]] == i
    ensures |i| == 3 ==> [i[0], i[1], i[2]] == i
  {
  }

  lemma HindexedInts(i: seq<int>, n: nat)
    requires |i| == n + 1
    ensures [i[0]] + i[1..1 + n] == i
  {
  }

  lemma BlockInts(i: seq<int>, n: nat)
    requires |i| == n + 2
    ensures [i[0], i[1]] + i[2..2 + n] == i
  {
  }

  lemma IndexedInts(i: seq<int>, n: nat)
    requires |i| == 2 * n + 1
    ensures [i[0]] + i[1..1 + n] + i[1 + n..1 + 2 * n] == i
  {
  }

  lemma SubarrayInts(i: seq<int>, n: nat)
    requires |i| == 3 * n + 2
    ensures [i[0]] + i[1..1 + n] + i[1 + n..1 + 2 * n] + i[1 + 2 * n..1 + 3 * n] + [i[1 + 3 * n]] == i
  {
    IndexedInts(i[..2 * n + 1], n);
    assert i[..2 * n + 1][1..1 + n] == i[1..1 + n] && i[..2 * n + 1][1 + n..1 + 2 * n] == i[1 + n..1 + 2 * n];
    assert i == i[..2 * n + 1] + i[1 + 2 * n..1 + 3 * n] + [i[1 + 3 * n]];
  }

  lemma DarrayInts(i: seq<int>, n: nat)
    requires |i| == 4 * n + 4
    ensures [i[0], i[1], i[2]] + i[3..3 + n] + i[3 + n..3 + 2 * n] + i[3 + 2 * n..3 + 3 * n]
            + i[3 + 3 * n..3 + 4 * n] + [i[3 + 4 * n]] == i
  {
    var four := [i[0], i[1], i[2]] + i[3..3 + n] + i[3 + n..3 + 2 * n];
    assert four == i[..3 + 2 * n];
    assert four + i[3 + 2 * n..3 + 3 * n] == i[..3 + 3 * n];
    assert i[..3 + 3 * n] + i[3 + 3 * n..3 + 4 * n] == i[..3 + 4 * n];
  }

  /** __ompi_datatype_create_from_args: how many arguments there are is worked out
      anew from the combiner and the leading integers, and comes to all of them. */
  function CreateFromArgs(i: seq<int>, a: seq<int>, d: seq<Desc>, combiner: nat): (r: Desc)
    requires Shaped(combiner, i, |a|, |d|)
    ensures r == Node(NormalCombiner(combiner), i, a, d)
  {
    Whole(a);
    Whole(d);
    FewInts(i);
    if combiner == CONTIGUOUS then Node(CONTIGUOUS, [i[0]], [], d[..1])
    else if combiner == VECTOR then Node(VECTOR, [i[0], i[1], i[2]], [], d[..1])
    else if combiner == HVECTOR || combiner == HVECTOR_INTEGER then Node(HVECTOR, [i[0], i[1]], a[..1], d[..1])
    else if combiner == INDEXED then
      IndexedInts(i, i[0]);
      Node(INDEXED, [i[0]] + i[1..1 + i[0]] + i[1 + i[0]..1 + 2 * i[0]], [], d[..1])
    else if combiner == HINDEXED || combiner == HINDEXED_INTEGER then
      HindexedInts(i, i[0]);
      Node(HINDEXED, [i[0]] + i[1..1 + i[0]], a[..i[0]], d[..1])
    else if combiner == INDEXED_BLOCK then
      BlockInts(i, i[0]);
      Node(INDEXED_BLOCK, [i[0], i[1]] + i[2..2 + i[0]], [], d[..1])
    else if combiner == STRUCT || combiner == STRUCT_INTEGER then
      HindexedInts(i, i[0]);
      Node(STRUCT, [i[0]] + i[1..1 + i[0]], a[..i[0]], d[..i[0]])
    else if combiner == SUBARRAY then
      var n := i[0];
      SubarrayInts(i, n);
      Node(SUBARRAY, [n] + i[1..1 + n] + i[1 + n..1 + 2 * n] + i[1 + 2 * n..1 + 3 * n] + [i[1 + 3 * n]], [], d[..1])
    else if combiner == DARRAY then
      var n := i[2];
      DarrayInts(i, n);
      Node(DARRAY, [i[0], i[1], n] + i[3..3 + n] + i[3 + n..3 + 2 * n] + i[3 + 2 * n..3 + 3 * n]
                   + i[3 + 3 * n..3 + 4 * n] + [i[3 + 4 * n]], [], d[..1])
    else if combiner == RESIZED then Node(RESIZED, [], a[..2], d[..1])
    else Node(HINDEXED_BLOCK, [i[0], i[1]], a[..i[0]], d[..1])
  }

  // ---------------------------------------------------------------------- the parser

  /** The entry of a child tells whether it is predefined, and which one. */
  lemma SlotRead(buf: seq<byte>, p: nat, kid: Desc, local: bool, remote: bool)
    requires SlotAt(buf, p, kid, remote) && WellFormed(kid)
    ensures var id := Read(Load(buf, p, 4), local, remote);
            if kid.Named? then id == kid.id else id >= MAX_PREDEFINED
  {
    FourBytes();
    ReadIsSigned(Load(buf, p, 4), local, remote);
    if kid.Named? {
      WordRoundTrip(kid.id, 4, remote);
    }
  }

  lemma {:induction false} KidAt(buf: seq<byte>, kids: seq<Desc>, n: nat, i: nat, pos: nat, big: bool, align: bool)
    requires i < n <= |kids| && KidsAt(buf, kids, n, pos, big, align) && !kids[i].Named?
    ensures DescAt(buf, KidsEnd(kids, i, pos, align), kids[i], big, align)
    decreases n
  {
    if i < n - 1 {
      KidAt(buf, kids, n - 1, i, pos, big, align);
    }
  }

  /** The header and the arguments of a combiner. */
  method ReadHead(buf: seq<byte>, pos: nat, local: bool, remote: bool, align: bool, ghost d: Desc)
    returns (combiner: int, ints: seq<int>, disps: seq<int>, count: nat, slots: nat, kids: nat)
    requires d.Node? && WellFormed(d) && HeadAt(buf, pos, d, remote, align)
    ensures combiner == d.combiner && ints == d.ints && disps == d.disps && count == |d.kids|
    ensures slots == SlotsPos(d, pos, align) && kids == KidsPos(d, pos, align)
  {
    HeaderFits(d);
    var head := ReadWords(buf, pos, 4, 4, local, remote, Header(d));
    combiner := head[0];
    var p := pos + 16;
    if head[2] > 0 {
      p := AlignUp(p, align);
    }
    disps := ReadWords(buf, p, head[2], 8, local, remote, d.disps);
    slots := p + 8 * head[2];
    ints := ReadWords(buf, slots + 4 * head[3], head[1], 4, local, remote, d.ints);
    count, kids := head[3], slots + 4 * head[3] + 4 * head[1];
  }

  lemma HeaderFits(d: Desc)
    requires d.Node? && WellFormed(d)
    ensures AllFit(Header(d), 4)
  {
    FourBytes();
  }

  /** A description reads back as the datatype it was written for, however many
      duplicates that went through, and the reading stops where the writing did. */
  method Unpack(buf: seq<byte>, pos: nat, local: bool, remote: bool, align: bool, ghost d: Desc) returns (r: Desc, pos': nat)
    requires WellFormed(d) && DescAt(buf, pos, d, remote, align)
    ensures r == Normal(d) && pos' == End(d, pos, align)
    decreases d, 3
  {
    CoreIsThere(buf, pos, d, remote, align);
    ghost var c := Core(d);
    FirstInt(buf, pos, c, local, remote, align);
    if Read(Load(buf, pos, 4), local, remote) == NAMED {
      FourBytes();
      var head := ReadWords(buf, pos, 2, 4, local, remote, [NAMED, c.id]);
      r, pos' := Named(head[1]), pos + 8;
    } else {
      r, pos' := UnpackNode(buf, pos, local, remote, align, c);
    }
  }

  /** The first integer of a description is the combiner. */
  lemma FirstInt(buf: seq<byte>, pos: nat, d: Desc, local: bool, remote: bool, align: bool)
    requires !d.Dup? && WellFormed(d) && DescAt(buf, pos, d, remote, align)
    ensures pos + 4 <= |buf| && (Read(Load(buf, pos, 4), local, remote) == NAMED <==> d.Named?)
  {
    FourBytes();
    match d
    case Named(id) => FirstWord(buf, pos, [NAMED, id], 4, local, remote);
    case Node(_, _, _, _) =>
      HeaderFits(d);
      FirstWord(buf, pos, Header(d), 4, local, remote);
  }

  lemma Rebuilt(d: Desc, types: seq<Desc>)
    requires d.Node? && |types| == |d.kids| && forall i :: 0 <= i < |types| ==> types[i] == Normal(d.kids[i])
    ensures Node(NormalCombiner(d.combiner), d.ints, d.disps, types) == Normal(d)
  {
  }

  /** The parser's loop over the children. */
  method UnpackKids(buf: seq<byte>, slots: nat, body: nat, count: nat, local: bool, remote: bool, align: bool, ghost d: Desc)
    returns (types: seq<Desc>, p: nat)
    requires d.Node? && WellFormed(d) && count == |d.kids| && SlotsAt(buf, slots, d.kids, count, remote)
    requires KidsAt(buf, d.kids, count, body, remote, align)
    ensures |types| == count && forall i :: 0 <= i < count ==> types[i] == Normal(d.kids[i])
    ensures p == KidsEnd(d.kids, count, body, align)
    decreases d, 1
  {
    types, p := [], body;
    while |types| < count
      invariant |types| <= count && p == KidsEnd(d.kids, |types|, body, align)
      invariant forall i :: 0 <= i < |types| ==> types[i] == Normal(d.kids[i])
    {
      var t;
      t, p := UnpackKid(buf, slots, |types|, p, local, remote, align, d, body);
      types := types + [t];
    }
  }

  method UnpackNode(buf: seq<byte>, pos: nat, local: bool, remote: bool, align: bool, ghost d: Desc) returns (r: Desc, pos': nat)
    requires d.Node? && WellFormed(d) && DescAt(buf, pos, d, remote, align)
    ensures r == Normal(d) && pos' == End(d, pos, align)
    decreases d, 2
  {
    var combiner, ints, disps, count, slots, kids := ReadHead(buf, pos, local, remote, align, d);
    var types;
    types, pos' := UnpackKids(buf, slots, kids, count, local, remote, align, d);
    Rebuilt(d, types);
    r := CreateFromArgs(ints, disps, types, combiner);
  }

  /** One turn of the loop over the children. */
  method UnpackKid(buf: seq<byte>, slots: nat, i: nat, p: nat, local: bool, remote: bool, align: bool, ghost d: Desc, ghost body: nat)
    returns (t: Desc, p': nat)
    requires d.Node? && i < |d.kids| && WellFormed(d) && SlotsAt(buf, slots, d.kids, |d.kids|, remote)
    requires KidsAt(buf, d.kids, |d.kids|, body, remote, align) && p == KidsEnd(d.kids, i, body, align)
    ensures t == Normal(d.kids[i]) && p' == KidsEnd(d.kids, i + 1, body, align)
    decreases d, 0
  {
    var slot := slots + 4 * i;
    SlotRead(buf, slot, d.kids[i], local, remote);
    var id := Read(Load(buf, slot, 4), local, remote);
    if id < MAX_PREDEFINED {
      t, p' := Named(id), p;
    } else {
      KidAt(buf, d.kids, |d.kids|, i, body, remote, align);
      t, p' := Unpack(buf, p, local, remote, align, d.kids[i]);
    }
  }
}
