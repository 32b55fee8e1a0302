/** The datatypes of a process, the size each precomputes for its packed description
    (ompi_datatype_set_args), and the description once one is asked for
    (ompi_datatype_get_pack_description). */
module PackStore {
  import opened Basics
  import opened Bytes
  import opened PackLayout
  import opened PackSize
  import PackEncoder
  import PackDecoder

  /** A datatype as the arguments it was made from; `kids` are handles of older datatypes. */
  datatype Shape =
    | Predefined(id: nat)
    | Derived(combiner: nat, ints: seq<int>, disps: seq<int>, kids: seq<nat>)

  /** Arguments refer to older datatypes only, and a duplicate to exactly one. */
  predicate Ordered(shapes: seq<Shape>) {
    forall i :: 0 <= i < |shapes| ==> InOrder(shapes[i], i)
  }

  predicate InOrder(shape: Shape, i: nat) {
    shape.Derived? ==>
      && (shape.combiner == DUP ==> |shape.kids| == 1)
      && forall j :: 0 <= j < |shape.kids| ==> shape.kids[j] < i
  }

  function Tree(shapes: seq<Shape>, i: nat): Desc
    requires Ordered(shapes) && i < |shapes|
    decreases i, 1
  {
    match shapes[i]
    case Predefined(id) => Named(id)
    case Derived(combiner, ints, disps, kids) =>
      if combiner == DUP then Dup(Tree(shapes, kids[0])) else Node(combiner, ints, disps, Trees(shapes, kids, i))
  }

  function Trees(shapes: seq<Shape>, kids: seq<nat>, i: nat): (r: seq<Desc>)
    requires Ordered(shapes) && i <= |shapes| && forall j :: 0 <= j < |kids| ==> kids[j] < i
    ensures |r| == |kids| && forall j :: 0 <= j < |kids| ==> r[j] == Tree(shapes, kids[j])
    decreases i, 0
  {
    seq(|kids|, j requires 0 <= j < |kids| => Tree(shapes, kids[j]))
  }

  lemma {:induction false} TreeGrows(shapes: seq<Shape>, shape: Shape, i: nat)
    requires Ordered(shapes) && Ordered(shapes + [shape]) && i < |shapes|
    ensures Tree(shapes + [shape], i) == Tree(shapes, i)
    decreases i
  {
    if shapes[i].Derived? {
      var kids := shapes[i].kids;
      assert InOrder(shapes[i], i);
      forall j | 0 <= j < |kids|
        ensures Tree(shapes + [shape], kids[j]) == Tree(shapes, kids[j])
      {
        TreeGrows(shapes, shape, kids[j]);
      }
      assert shapes[i].combiner != DUP ==> Trees(shapes + [shape], kids, i) == Trees(shapes, kids, i);
    }
  }

  /** Freshly allocated memory holds whatever it holds. */
  method Malloc(n: nat) returns (m: seq<byte>)
    ensures |m| == n
  {
    var zeros: seq<byte> := seq(n, i => 0);
    assert |zeros| == n;
    m :| |m| == n;
  }

  ghost predicate TypeValid(d: Desc, size: nat, packed: Option<seq<byte>>, big: bool, align: bool) {
    && WellFormed(d)
    && (!d.Named? ==> Enough(d, size, align))
    && (packed.Some? ==> DescAt(packed.value, 0, d, big, align) && (!d.Named? ==> size == End(d, 0, align)))
  }

  class TypeStore {
    const big: bool
    const align: bool
    var shapes: seq<Shape>
    /** total_pack_size. */
    var sizes: seq<nat>
    /** packed_description. */
    var packed: seq<Option<seq<byte>>>

    ghost predicate Valid()
      reads this
    {
      && Ordered(shapes) && |shapes| == |sizes| == |packed|
      && forall i :: 0 <= i < |shapes| ==> TypeValid(Tree(shapes, i), sizes[i], packed[i], big, align)
    }

    constructor (big: bool, align: bool)
      ensures Valid() && shapes == [] && this.big == big && this.align == align
    {
      this.big, this.align := big, align;
      shapes, sizes, packed := [], [], [];
    }

    /** A predefined datatype. */
    method AddPredefined(id: nat) returns (handle: nat)
      requires Valid() && id < MAX_PREDEFINED
      modifies this
      ensures Valid() && handle == |old(shapes)| && shapes == old(shapes) + [Predefined(id)]
      ensures Tree(shapes, handle) == Named(id) && sizes == old(sizes) + [0] && packed == old(packed) + [None]
    {
      handle := |shapes|;
      Append(Predefined(id), 0);
    }

    method Append(shape: Shape, size: nat)
      requires Valid() && InOrder(shape, |shapes|)
      requires var all := shapes + [shape]; Ordered(all) ==> TypeValid(Tree(all, |shapes|), size, None, big, align)
      modifies this
      ensures Valid() && shapes == old(shapes) + [shape] && sizes == old(sizes) + [size] && packed == old(packed) + [None]
    {
      ghost var before := shapes;
      assert Ordered(shapes + [shape]);
      forall i | 0 <= i < |shapes|
        ensures Tree(shapes + [shape], i) == Tree(shapes, i)
      {
        TreeGrows(shapes, shape, i);
      }
      shapes, sizes, packed := shapes + [shape], sizes + [size], packed + [None];
    }

    /** ompi_datatype_set_args: the precomputed size is enough for the description,
        also when descriptions of its arguments have been made and their sizes cut. */
    method SetArgs(combiner: nat, ints: seq<int>, disps: seq<int>, kids: seq<nat>) returns (handle: nat)
      requires Valid() && forall j :: 0 <= j < |kids| ==> kids[j] < |shapes|
      requires if combiner == DUP then |kids| == 1 else WellFormed(Node(combiner, ints, disps, Trees(shapes, kids, |shapes|)))
      modifies this
      ensures Valid() && handle == |old(shapes)| && shapes == old(shapes) + [Derived(combiner, ints, disps, kids)]
      ensures sizes[..handle] == old(sizes) && packed == old(packed) + [None]
      ensures Enough(Tree(shapes, handle), sizes[handle], align)
    {
      handle := |shapes|;
      var shape := Derived(combiner, ints, disps, kids);
      var total := if combiner == DUP then 0 else (4 + |ints| + |kids|) * 4 + |disps| * 8;
      ghost var trees, found := Trees(shapes, kids, handle), KidSizes(sizes, kids);
      var pos := 0;
      while pos < |kids|
        invariant 0 <= pos <= |kids|
        invariant total == (if combiner == DUP then 0 else (4 + |ints| + |kids|) * 4 + |disps| * 8) + Counted(trees, found, pos)
      {
        if shapes[kids[pos]].Derived? {
          total := total + sizes[kids[pos]];
        } else {
          total := total + 4;
        }
        total := total + 4;
        pos := pos + 1;
      }
      NewTree(shapes, shape, trees);
      KidsEnough(trees, found);
      if combiner == DUP {
        DupFits(trees[0], found[0], align);
        assert trees == [trees[0]] && found == [found[0]];
      } else {
        NodeFits(Node(combiner, ints, disps, trees), found, align);
      }
      Append(shape, total);
    }

    lemma KidsEnough(trees: seq<Desc>, found: seq<nat>)
      requires Valid() && |trees| == |found|
      requires forall j :: 0 <= j < |trees| ==> exists i :: 0 <= i < |shapes| && trees[j] == Tree(shapes, i) && found[j] == sizes[i]
      ensures AllEnough(trees, found, align)
    {
      forall j | 0 <= j < |trees| && !trees[j].Named?
        ensures Enough(trees[j], found[j], align)
      {
        var i :| 0 <= i < |shapes| && trees[j] == Tree(shapes, i) && found[j] == sizes[i];
        assert TypeValid(Tree(shapes, i), sizes[i], packed[i], big, align);
      }
    }

    /** ompi_datatype_get_pack_description: the bytes written never exceed the
        precomputed size, which then becomes the exact length. */
    method GetPackDescription(i: nat) returns (desc: seq<byte>)
      requires Valid() && i < |shapes| && sizes[i] + MAX_PREDEFINED <= INT_MAX
      modifies this
      ensures Valid() && shapes == old(shapes) && packed[i] == Some(desc) && DescAt(desc, 0, Tree(shapes, i), big, align)
      ensures shapes[i].Derived? ==> sizes[i] == End(Tree(shapes, i), 0, align) <= old(sizes[i])
      ensures |sizes| == |old(sizes)| && |packed| == |old(packed)| && (old(packed)[i].Some? ==> packed[i] == old(packed)[i])
      ensures forall j :: 0 <= j < |shapes| && j != i ==> sizes[j] == old(sizes[j]) && packed[j] == old(packed[j])
    {
      ghost var d := Tree(shapes, i);
      assert TypeValid(d, sizes[i], packed[i], big, align);
      if packed[i].Some? {
        return packed[i].value;
      }
      var buf, written := PackOne(shapes, i, if shapes[i].Predefined? then 8 else sizes[i], big, align);
      if shapes[i].Derived? {
        ExactIsEnough(d, align);
        sizes := sizes[i := written];
      }
      packed := packed[i := Some(buf)];
      desc := buf;
    }

    ghost function Now(): Stored
      reads this
    {
      Stored(shapes, sizes, packed)
    }

    /** One call, if its arguments are legal. */
    method Make(call: Call)
      requires Valid()
      modifies this
      ensures Valid() && Made(call, big, align, old(Now()), Now())
    {
      match call
      case NewPredefined(id) =>
        if id < MAX_PREDEFINED {
          var handle := AddPredefined(id);
        }
      case NewDerived(combiner, ints, disps, kids) =>
        if Legal(shapes, combiner, ints, disps, kids) {
          var handle := SetArgs(combiner, ints, disps, kids);
        }
      case Describe(i) =>
        if i < |shapes| && sizes[i] + MAX_PREDEFINED <= INT_MAX {
          var desc := GetPackDescription(i);
        }
    }

    /** Any sequence of calls: each has its effect, every size is enough after them, and none has grown. */
    method Run(calls: seq<Call>) returns (ghost states: seq<Stored>)
      requires Valid()
      modifies this
      ensures Valid() && Shrunk(old(Now()), Now())
      ensures forall i :: 0 <= i < |shapes| && shapes[i].Derived? ==> Enough(Tree(shapes, i), sizes[i], align)
      ensures Ran(calls, big, align, states) && states[0] == old(Now()) && states[|calls|] == Now()
    {
      var n := 0;
      states := [Now()];
      while n < |calls|
        invariant 0 <= n <= |calls| && Valid() && Shrunk(old(Now()), Now())
        invariant Ran(calls[..n], big, align, states) && states[0] == old(Now()) && states[n] == Now()
      {
        ghost var s := Now();
        Make(calls[n]);
        MadeShrinks(calls[n], big, align, s, Now());
        ShrunkTwice(old(Now()), s, Now());
        assert calls[..n + 1] == calls[..n] + [calls[n]];
        RanOnce(calls[..n], big, align, states, calls[n], Now());
        states := states + [Now()];
        n := n + 1;
      }
      assert calls[..n] == calls;
      forall i | 0 <= i < |shapes| && shapes[i].Derived?
        ensures Enough(Tree(shapes, i), sizes[i], align)
      {
        assert TypeValid(Tree(shapes, i), sizes[i], packed[i], big, align);
      }
    }
  }

  /** The state of a store. */
  datatype Stored = Stored(shapes: seq<Shape>, sizes: seq<nat>, packed: seq<Option<seq<byte>>>)

  /** Arguments that make a datatype. */
  predicate Legal(shapes: seq<Shape>, combiner: nat, ints: seq<int>, disps: seq<int>, kids: seq<nat>) {
    && Ordered(shapes) && (forall j :: 0 <= j < |kids| ==> kids[j] < |shapes|)
    && if combiner == DUP then |kids| == 1 else WellFormed(Node(combiner, ints, disps, Trees(shapes, kids, |shapes|)))
  }

  /** The effect of a call. */
  ghost predicate Made(call: Call, big: bool, align: bool, s: Stored, s': Stored) {
    match call
    case NewPredefined(id) =>
      s' == if id < MAX_PREDEFINED then Stored(s.shapes + [Predefined(id)], s.sizes + [0], s.packed + [None]) else s
    case NewDerived(combiner, ints, disps, kids) =>
      if Legal(s.shapes, combiner, ints, disps, kids)
      then
        && s'.shapes == s.shapes + [Derived(combiner, ints, disps, kids)] && s'.packed == s.packed + [None]
        && |s'.sizes| == |s.sizes| + 1 == |s'.shapes| && s'.sizes[..|s.sizes|] == s.sizes
        && Ordered(s'.shapes) && Enough(Tree(s'.shapes, |s.shapes|), s'.sizes[|s.sizes|], align)
      else s' == s
    case Describe(i) =>
      if i < |s.shapes| == |s.sizes| == |s.packed| && s.sizes[i] + MAX_PREDEFINED <= INT_MAX
      then MadeDescription(i, big, align, s, s') else s' == s
  }

  ghost predicate MadeDescription(i: nat, big: bool, align: bool, s: Stored, s': Stored)
    requires i < |s.shapes| == |s.sizes| == |s.packed|
  {
    && s'.shapes == s.shapes && Ordered(s.shapes) && |s'.sizes| == |s.sizes| && |s'.packed| == |s.packed|
    && s'.packed[i].Some? && DescAt(s'.packed[i].value, 0, Tree(s.shapes, i), big, align)
    && (s.packed[i].Some? ==> s'.packed[i] == s.packed[i])
    && (s.shapes[i].Derived? ==> s'.sizes[i] == End(Tree(s.shapes, i), 0, align) <= s.sizes[i])
    && forall j :: 0 <= j < |s.shapes| && j != i ==> s'.sizes[j] == s.sizes[j] && s'.packed[j] == s.packed[j]
  }

  /** Datatypes stay, and no size has grown. */
  ghost predicate Shrunk(s: Stored, s': Stored) {
    && s.shapes <= s'.shapes && |s.shapes| == |s.sizes| && |s'.shapes| == |s'.sizes|
    && forall i :: 0 <= i < |s.shapes| && s.shapes[i].Derived? ==> s'.sizes[i] <= s.sizes[i]
  }

  lemma MadeShrinks(call: Call, big: bool, align: bool, s: Stored, s': Stored)
    requires Made(call, big, align, s, s') && |s.shapes| == |s.sizes|
    ensures Shrunk(s, s')
  {
    if call.NewDerived? && s' != s {
      assert forall i :: 0 <= i < |s.sizes| ==> s'.sizes[i] == s'.sizes[..|s.sizes|][i];
    }
  }

  lemma ShrunkTwice(s: Stored, s': Stored, s'': Stored)
    requires Shrunk(s, s') && Shrunk(s', s'')
    ensures Shrunk(s, s'')
  {
  }

  /** The states before and after each call. */
  ghost predicate Ran(calls: seq<Call>, big: bool, align: bool, states: seq<Stored>) {
    |states| == |calls| + 1 && forall i :: 0 <= i < |calls| ==> Made(calls[i], big, align, states[i], states[i + 1])
  }

  lemma RanOnce(calls: seq<Call>, big: bool, align: bool, states: seq<Stored>, call: Call, s: Stored)
    requires Ran(calls, big, align, states) && Made(call, big, align, states[|calls|], s)
    ensures Ran(calls + [call], big, align, states + [s])
  {
    var all, after := calls + [call], states + [s];
    forall i | 0 <= i < |all|
      ensures Made(all[i], big, align, after[i], after[i + 1])
    {
      if i < |calls| {
        assert Made(calls[i], big, align, states[i], states[i + 1]);
      }
    }
  }

  /** What a process does with datatypes, in any order. */
  datatype Call =
    | NewPredefined(id: nat)
    | NewDerived(combiner: nat, ints: seq<int>, disps: seq<int>, kids: seq<nat>)
    | Describe(handle: nat)

  function KidSizes(sizes: seq<nat>, kids: seq<nat>): seq<nat>
    requires forall j :: 0 <= j < |kids| ==> kids[j] < |sizes|
  {
    seq(|kids|, j requires 0 <= j < |kids| => sizes[kids[j]])
  }

  lemma NewTree(shapes: seq<Shape>, shape: Shape, trees: seq<Desc>)
    requires Ordered(shapes) && shape.Derived? && InOrder(shape, |shapes|) && trees == Trees(shapes, shape.kids, |shapes|)
    ensures Ordered(shapes + [shape])
    ensures Tree(shapes + [shape], |shapes|)
            == if shape.combiner == DUP then Dup(trees[0]) else Node(shape.combiner, shape.ints, shape.disps, trees)
  {
    var all := shapes + [shape];
    assert Ordered(all);
    forall j | 0 <= j < |shape.kids|
      ensures Tree(all, shape.kids[j]) == trees[j]
    {
      TreeGrows(shapes, shape, shape.kids[j]);
    }
    assert shape.combiner != DUP ==> Trees(all, shape.kids, |shapes|) == trees;
  }

  /** The recursive encoder run on a buffer of its own. */
  method PackOne(shapes: seq<Shape>, i: nat, size: nat, big: bool, align: bool) returns (buf: seq<byte>, written: nat)
    requires Ordered(shapes) && i < |shapes| && WellFormed(Tree(shapes, i))
    requires End(Tree(shapes, i), 0, align) <= size && size + MAX_PREDEFINED <= INT_MAX
    ensures DescAt(buf, 0, Tree(shapes, i), big, align) && written == End(Tree(shapes, i), 0, align)
  {
    buf := Malloc(size);
    var next;
    buf, written, next := PackEncoder.Pack(Tree(shapes, i), buf, 0, MAX_PREDEFINED, big, align);
  }

  /** A datatype described by one process and rebuilt by another, of either byte order:
      the same datatype without its duplicates, from exactly the bytes of the description. */
  method Transfer(sender: TypeStore, i: nat, receiverBig: bool) returns (r: Desc, read: nat)
    requires sender.Valid() && i < |sender.shapes| && sender.sizes[i] + MAX_PREDEFINED <= INT_MAX
    modifies sender
    ensures sender.Valid() && sender.shapes == old(sender.shapes)
    ensures r == PackDecoder.Normal(Tree(sender.shapes, i))
    ensures read == if sender.shapes[i].Predefined? then 8 else sender.sizes[i]
  {
    var desc := sender.GetPackDescription(i);
    ghost var d := Tree(sender.shapes, i);
    assert TypeValid(d, sender.sizes[i], sender.packed[i], sender.big, sender.align);
    r, read := PackDecoder.Unpack(desc, 0, receiverBig, sender.big, sender.align, d);
  }
}
