/** ompi_datatype_create_struct: blocks of several types, of which neighbours with the
    same type handle are merged, and exactly when that makes the same type as adding
    them one by one. */
module StructMerging {
  import opened Basics
  import opened Typemap
  import opened Merging

  /** The arguments: handles into `store`, lengths and byte displacements. */
  datatype Args = Args(types: seq<nat>, lengths: seq<nat>, disps: seq<int>)

  predicate ValidArgs(store: seq<Datatype>, a: Args) {
    |a.types| == |a.lengths| == |a.disps| && forall i :: 0 <= i < |a.types| ==> a.types[i] < |store|
  }

  /** The entries of the first `n` blocks. */
  function Members(store: seq<Datatype>, a: Args, n: nat): seq<Entry>
    requires ValidArgs(store, a) && n <= |a.types|
  {
    if n == 0 then []
    else
      var t := store[a.types[n - 1]];
      Members(store, a, n - 1) + Copies(t.entries, a.lengths[n - 1], a.disps[n - 1], Extent(t))
  }

  /** The type made of the first `n` blocks when each is added on its own. */
  function SeparateMembers(store: seq<Datatype>, a: Args, n: nat): (r: Datatype)
    requires ValidArgs(store, a) && n <= |a.types|
    ensures r.align > 0
  {
    if n == 0 then EMPTY
    else
      var t := store[a.types[n - 1]];
      Add(SeparateMembers(store, a, n - 1), t, a.lengths[n - 1], a.disps[n - 1], Extent(t))
  }

  /** The type under construction and the run that has not been added to it yet, once
      a block that is not empty has come. */
  datatype State = Waiting | Running(pdt: Datatype, last: nat, length: nat, disp: int)

  predicate ValidState(store: seq<Datatype>, s: State) {
    s.Running? ==> s.pdt.align > 0 && s.last < |store|
  }

  function FlushMembers(store: seq<Datatype>, s: State): (t: Datatype)
    requires ValidState(store, s)
    ensures t.align > 0
  {
    if s.Waiting? then EMPTY else Add(s.pdt, store[s.last], s.length, s.disp, Extent(store[s.last]))
  }

  /** One more block. */
  function ExtendMembers(store: seq<Datatype>, s: State, handle: nat, length: nat, disp: int): (s': State)
    requires ValidState(store, s) && handle < |store|
    ensures ValidState(store, s')
  {
    if s.Waiting? then if length == 0 then Waiting else Running(EMPTY, handle, length, disp)
    else if handle == s.last && disp == s.disp + Extent(store[s.last]) * s.length then s.(length := s.length + length)
    else Running(FlushMembers(store, s), handle, length, disp)
  }

  function States(store: seq<Datatype>, a: Args, n: nat): (s: State)
    requires ValidArgs(store, a) && n <= |a.types|
    ensures ValidState(store, s)
  {
    if n == 0 then Waiting else ExtendMembers(store, States(store, a, n - 1), a.types[n - 1], a.lengths[n - 1], a.disps[n - 1])
  }

  function MergedMembers(store: seq<Datatype>, a: Args, n: nat): Datatype
    requires ValidArgs(store, a) && n <= |a.types|
  {
    FlushMembers(store, States(store, a, n))
  }

  lemma {:induction false} StillWaiting(store: seq<Datatype>, a: Args, n: nat)
    requires ValidArgs(store, a) && n <= |a.types| && forall i :: 0 <= i < n ==> a.lengths[i] == 0
    ensures States(store, a, n) == Waiting && Members(store, a, n) == []
  {
    if n > 0 {
      StillWaiting(store, a, n - 1);
    }
  }

  lemma LongerEntries(pdt: Datatype, t: Datatype, a: nat, b: nat, d: int, d': int)
    requires pdt.align > 0 && d' == d + Extent(t) * a
    ensures Add(pdt, t, a + b, d, Extent(t)).entries == Add(pdt, t, a, d, Extent(t)).entries + Copies(t.entries, b, d', Extent(t))
  {
    Prolong(pdt.entries, t.entries, a, b, d, Extent(t), d');
  }

  lemma ExtendMemberEntries(store: seq<Datatype>, s: State, handle: nat, length: nat, disp: int)
    requires ValidState(store, s) && handle < |store|
    ensures FlushMembers(store, ExtendMembers(store, s, handle, length, disp)).entries
            == FlushMembers(store, s).entries + Copies(store[handle].entries, length, disp, Extent(store[handle]))
  {
    if s.Running? && handle == s.last && disp == s.disp + Extent(store[s.last]) * s.length {
      LongerEntries(s.pdt, store[handle], s.length, length, s.disp, disp);
    }
  }

  /** Merging never changes the type map. */
  lemma {:induction false} MergedMemberEntries(store: seq<Datatype>, a: Args, n: nat)
    requires ValidArgs(store, a) && n <= |a.types|
    ensures MergedMembers(store, a, n).entries == Members(store, a, n)
  {
    if n > 0 {
      MergedMemberEntries(store, a, n - 1);
      ExtendMemberEntries(store, States(store, a, n - 1), a.types[n - 1], a.lengths[n - 1], a.disps[n - 1]);
    }
  }

  // ------------------------------------------------------------ when bounds are the same

  /** Neither type has an upper-bound marker, the first one has an alignment, the second one
      is backwards and its lower bound counts beside that of the first. */
  predicate Clash(s: Datatype, t: Datatype) {
    !s.userUb && !t.userUb && s.align > 1 && Extent(t) < 0 && (s.userLb ==> t.userLb)
  }

  /** No two of the types clash. */
  predicate Gentle(types: seq<Datatype>) {
    forall i, j :: 0 <= i < |types| && 0 <= j < |types| ==> !Clash(types[i], types[j])
  }

  /** A type that is backwards has no say about the lower bound. */
  predicate Overruled(base: Datatype, types: seq<Datatype>) {
    forall i :: 0 <= i < |types| && !types[i].userUb && Extent(types[i]) < 0 ==> base.userLb && !types[i].userLb
  }

  /** One of the types is aligned and has no markers. */
  predicate Unmarked(types: seq<Datatype>) {
    exists i :: 0 <= i < |types| && !types[i].userUb && !types[i].userLb && types[i].align > 1
  }

  /** What gentle types make. */
  predicate Sane(base: Datatype, types: seq<Datatype>) {
    && base.align > 0
    && (!base.userUb && base.align > 1 ==> base.lb <= base.ub && Overruled(base, types))
    && (!base.userUb && base.userLb && Unmarked(types) ==> base.lb <= base.ub)
  }

  /** The lower bound does not pass the upper one. */
  lemma InOrder(base: Datatype, types: seq<Datatype>, i: nat, n: nat, d: int)
    requires Gentle(types) && Sane(base, types) && i < |types| && n >= 1 && !base.userUb && !types[i].userUb
    ensures var bounds := NewBounds(base, types[i], n, d);
            && (JoinAlign(base, types[i]) > 1 ==> bounds.0 <= bounds.1)
            && (JoinAlign(base, types[i]) > 1 && Extent(types[i]) < 0 ==> base.userLb && !types[i].userLb)
            && ((base.userLb || types[i].userLb) && Unmarked(types) ==> bounds.0 <= bounds.1)
  {
    var t := types[i];
    assert !Clash(t, t);
    if Extent(t) >= 0 {
      BoundsInOrder(t, n, d);
    }
    if Unmarked(types) {
      var j :| 0 <= j < |types| && !types[j].userUb && !types[j].userLb && types[j].align > 1;
      assert !Clash(types[j], t);
    }
  }

  lemma PaddedInOrder(lb: int, ub: int, align: nat, userUb: bool)
    requires align > 0 && lb <= ub
    ensures lb <= Padded(lb, ub, align, userUb)
  {
    if !userUb {
      PaddedGrows(lb, ub, align);
    }
  }

  lemma AddSane(base: Datatype, types: seq<Datatype>, i: nat, n: nat, d: int)
    requires Gentle(types) && Sane(base, types) && i < |types|
    ensures Sane(Add(base, types[i], n, d, Extent(types[i])), types)
  {
    var t := types[i];
    if n >= 1 && !base.userUb && !t.userUb {
      var bounds := NewBounds(base, t, n, d);
      InOrder(base, types, i, n, d);
      if bounds.0 <= bounds.1 {
        PaddedInOrder(bounds.0, bounds.1, JoinAlign(base, t), false);
      }
      forall j | 0 <= j < |types| && JoinAlign(base, t) > 1 && !types[j].userUb && Extent(types[j]) < 0
        ensures (base.userLb || t.userLb) && !types[j].userLb
      {
        assert !Clash(t, types[j]);
      }
    }
  }

  lemma SaneSettles(base: Datatype, types: seq<Datatype>, i: nat, n: nat, d: int)
    requires Gentle(types) && Sane(base, types) && i < |types| && n >= 1
    ensures Settled(base, types[i], n, d)
  {
    var t := types[i];
    if !base.userUb && !t.userUb {
      var bounds := NewBounds(base, t, n, d);
      InOrder(base, types, i, n, d);
      if JoinAlign(base, t) == 1 {
        NoRemainder(bounds.1 - bounds.0);
      }
    }
  }

  /** The types of the blocks. */
  function Used(store: seq<Datatype>, a: Args): (r: seq<Datatype>)
    requires ValidArgs(store, a)
    ensures |r| == |a.types| && forall i :: 0 <= i < |r| ==> r[i] == store[a.types[i]]
  {
    seq(|a.types|, i requires 0 <= i < |a.types| => store[a.types[i]])
  }

  ghost predicate SaneState(store: seq<Datatype>, s: State, used: seq<Datatype>) {
    s.Running? ==> s.last < |store| && Sane(s.pdt, used) && exists i :: 0 <= i < |used| && used[i] == store[s.last]
  }

  lemma ExtendSane(store: seq<Datatype>, s: State, handle: nat, length: nat, disp: int, used: seq<Datatype>, j: nat)
    requires ValidState(store, s) && SaneState(store, s, used) && Gentle(used) && handle < |store| && j < |used| && used[j] == store[handle]
    ensures SaneState(store, ExtendMembers(store, s, handle, length, disp), used)
    ensures FlushMembers(store, ExtendMembers(store, s, handle, length, disp))
            == Add(FlushMembers(store, s), store[handle], length, disp, Extent(store[handle]))
  {
    if s.Running? {
      var i :| 0 <= i < |used| && used[i] == store[s.last];
      AddSane(s.pdt, used, i, s.length, s.disp);
      if handle == s.last && disp == s.disp + Extent(store[s.last]) * s.length {
        if s.length >= 1 {
          SaneSettles(s.pdt, used, i, s.length, s.disp);
        }
        AddSplit(s.pdt, store[handle], s.length, length, s.disp, disp);
      }
    }
  }

  /** Of gentle types, merging makes what adding one by one makes. */
  lemma {:induction false} MergedIsSeparateMembers(store: seq<Datatype>, a: Args, n: nat)
    requires ValidArgs(store, a) && n <= |a.types| && Gentle(Used(store, a))
    ensures SaneState(store, States(store, a, n), Used(store, a))
    ensures MergedMembers(store, a, n) == SeparateMembers(store, a, n)
  {
    if n > 0 {
      MergedIsSeparateMembers(store, a, n - 1);
      ExtendSane(store, States(store, a, n - 1), a.types[n - 1], a.lengths[n - 1], a.disps[n - 1], Used(store, a), n - 1);
    }
  }

  // --------------------------------------------------------- when they are not the same

  lemma SameExtension(store: seq<Datatype>, r: Run, handle: nat, length: nat, disp: int)
    requires handle < |store| && r.pdt.align > 0 && r.length > 0 && length > 0
    ensures var r' := Extend(store[handle], r, length, disp, 1, Extent(store[handle]));
            && r'.length > 0
            && ExtendMembers(store, Running(r.pdt, handle, r.length, r.disp), handle, length, disp)
               == Running(r'.pdt, handle, r'.length, r'.disp)
  {
  }

  /** Blocks of one type, none empty, merge as they do for hindexed. */
  lemma {:induction false} OneType(store: seq<Datatype>, a: Args, handle: nat, n: nat)
    requires ValidArgs(store, a) && handle < |store| && 1 <= n <= |a.types|
    requires forall i :: 0 <= i < n ==> a.types[i] == handle && a.lengths[i] > 0
    ensures var r := Runs(store[handle], a.lengths, a.disps, 1, Extent(store[handle]), n);
            r.length > 0 && States(store, a, n) == Running(r.pdt, handle, r.length, r.disp)
    ensures SeparateMembers(store, a, n) == Separate(store[handle], a.lengths, a.disps, 1, n)
  {
    var t := store[handle];
    if n == 1 {
      assert States(store, a, 0) == Waiting && SeparateMembers(store, a, 0) == EMPTY;
      assert Runs(t, a.lengths, a.disps, 1, Extent(t), 0) == Run(EMPTY, 0, 0) && Separate(t, a.lengths, a.disps, 1, 0) == EMPTY;
    } else {
      OneType(store, a, handle, n - 1);
      SameExtension(store, Runs(t, a.lengths, a.disps, 1, Extent(t), n - 1), handle, a.lengths[n - 1], a.disps[n - 1]);
    }
  }

  lemma AloneDiffers(store: seq<Datatype>, handle: nat) returns (a: Args)
    requires handle < |store| && Bounded(store[handle]) && Clash(store[handle], store[handle])
    ensures ValidArgs(store, a) && !AllZero(a.lengths) && MergedMembers(store, a, |a.types|) != SeparateMembers(store, a, |a.types|)
  {
    var disps := BytesDiffer(store[handle]);
    a := Args(Same(|disps|, handle), Same(|disps|, 1), disps);
    OneType(store, a, handle, |disps|);
    assert a.lengths[0] == 1;
  }

  /** A block of one type and two of another that merge. */
  predicate OneAndTwo(store: seq<Datatype>, a: Args, h: nat, h': nat, b: nat, d: int) {
    && h < |store| && h' < |store| && h != h' && ValidArgs(store, a) && |a.types| == 3
    && a.types[0] == h && a.types[1] == a.types[2] == h'
    && a.lengths[0] == a.lengths[1] == 1 && a.lengths[2] == b
    && a.disps[0] == 0 && a.disps[1] == d && a.disps[2] == d + Extent(store[h'])
  }

  lemma OneAndTwoMerged(store: seq<Datatype>, a: Args, h: nat, h': nat, b: nat, d: int, base: Datatype)
    requires OneAndTwo(store, a, h, h', b, d) && base == Add(EMPTY, store[h], 1, 0, Extent(store[h]))
    ensures States(store, a, 3) == Running(base, h', 1 + b, d)
  {
    assert States(store, a, 0) == Waiting;
    assert States(store, a, 1) == Running(EMPTY, h, 1, 0);
    assert States(store, a, 2) == Running(base, h', 1, d);
  }

  lemma OneAndTwoSeparate(store: seq<Datatype>, a: Args, h: nat, h': nat, b: nat, d: int, base: Datatype, t: Datatype)
    requires OneAndTwo(store, a, h, h', b, d) && base == Add(EMPTY, store[h], 1, 0, Extent(store[h])) && t == store[h']
    ensures SeparateMembers(store, a, 3) == Add(Add(base, t, 1, d, Extent(t)), t, b, d + Extent(t), Extent(t))
  {
    assert SeparateMembers(store, a, 0) == EMPTY;
    assert SeparateMembers(store, a, 1) == base;
    assert SeparateMembers(store, a, 2) == Add(base, t, 1, d, Extent(t));
  }

  lemma PaddedFits(lb: int, ub: int, align: nat)
    requires align > 0 && lb <= ub
    ensures var p := Padded(lb, ub, align, false); ub <= p < ub + align && (p - lb) % align == 0
  {
    var n := ub - lb;
    PaddedGrows(lb, ub, align);
    if n % align != 0 {
      DivMod(n, align);
      Distribute(n / align, 1, align);
      RoundsUp(n, align, n / align);
      Decompose((n / align + 1) * align, n / align + 1, 0, align);
    }
  }

  /** A block of an aligned type that is not backwards. */
  lemma AlignedBase(s: Datatype, base: Datatype)
    requires Bounded(s) && !s.userUb && s.align > 1 && Extent(s) >= 0 && base == Add(EMPTY, s, 1, 0, Extent(s))
    ensures base.align == s.align && !base.userUb && base.userLb == s.userLb
    ensures base.lb <= base.ub && (base.ub - base.lb) % s.align == 0
  {
    assert BoundsOfCopies(s, 1, 0, Extent(s)) == (s.lb, s.ub);
    PaddedFits(s.lb, s.ub, s.align);
  }

  /** Far enough back for the lower bound to pass that of `base`. */
  function Far(base: Datatype): nat
    requires base.align > 0 && base.lb <= base.ub
  {
    base.align * (base.ub + 1 - base.lb) + 1
  }

  lemma FarBack(base: Datatype, e: int)
    requires base.align > 0 && base.lb <= base.ub && e < 0
    ensures (e * (Far(base) - 1)) % base.align == 0 && base.ub + 1 + e * (Far(base) - 1) <= base.lb
  {
    var m := base.ub + 1 - base.lb;
    var k := base.align * m;
    Decompose(base.align, 1, 0, base.align);
    ModProduct(base.align, m, base.align);
    ModProduct(k, e, base.align);
    MultipleBelow(1, base.align, m);
    MultipleBelow(e, -1, k);
  }

  /** One element and `b` more behind it get another upper bound when added at once. */
  predicate Differs(base: Datatype, t: Datatype, b: nat, d: int)
    requires base.align > 0
  {
    Add(base, t, 1 + b, d, Extent(t)).ub < Add(Add(base, t, 1, d, Extent(t)), t, b, d + Extent(t), Extent(t)).ub
  }

  /** With lower bounds that count alike: one element beyond the upper bound is padded, with
      many more behind it there is nothing to pad. */
  lemma AlikeDiffers(base: Datatype, t: Datatype, b: nat, d: int)
    requires base.align > 1 && !base.userUb && base.lb <= base.ub && (base.ub - base.lb) % base.align == 0
    requires t.align <= 1 && !t.userUb && Extent(t) < 0 && t.userLb == base.userLb
    requires b == Far(base) && d == base.ub + 1 - t.ub
    ensures Differs(base, t, b, d)
  {
    var e, u := Extent(t), base.ub + 1;
    FarBack(base, e);
    Distribute(b - 1, 1, e);
    ProductNonNegative(b, -e);
    assert BoundsOfCopies(t, 1 + b, d, e) == (u + e * (b - 1), u);
    ModSum(0, e * (b - 1), base.align);
    PaddedGrows(u + e * (b - 1), u, base.align);
    assert Add(base, t, 1 + b, d, e).ub == u;
    assert BoundsOfCopies(t, 1, d, e) == (u - e, u);
    OneOff(base.ub - base.lb, base.align);
    PaddedGrows(base.lb, u, base.align);
    AddGrows(Add(base, t, 1, d, e), t, b, d + e);
  }

  /** With a lower bound that replaces that of `base`: one element beyond the upper bound
      leaves bounds out of order, two do not. */
  lemma ReplacedDiffers(base: Datatype, t: Datatype, d: int)
    requires base.align > 1 && !base.userUb && !base.userLb
    requires t.align <= 1 && !t.userUb && Extent(t) < 0 && t.userLb
    requires d == base.ub + 1 - t.lb
    ensures Differs(base, t, 1, d)
  {
    var e, u := Extent(t), base.ub + 1;
    assert BoundsOfCopies(t, 2, d, e) == (u + e, u + e);
    PaddedFits(u + e, base.ub, base.align);
    assert BoundsOfCopies(t, 1, d, e) == (u, u + e);
    Decompose(1, 0, 1, base.align);
    assert Padded(u, base.ub, base.align, false) == base.ub + base.align + 1;
    AddGrows(Add(base, t, 1, d, e), t, 1, d + e);
  }

  lemma Differing(base: Datatype, t: Datatype) returns (b: nat, d: int)
    requires base.align > 1 && !base.userUb && base.lb <= base.ub && (base.ub - base.lb) % base.align == 0
    requires t.align <= 1 && !t.userUb && Extent(t) < 0 && (base.userLb ==> t.userLb)
    ensures Differs(base, t, b, d)
  {
    if base.userLb == t.userLb {
      b, d := Far(base), base.ub + 1 - t.ub;
      AlikeDiffers(base, t, b, d);
    } else {
      b, d := 1, base.ub + 1 - t.lb;
      ReplacedDiffers(base, t, d);
    }
  }

  lemma OneAndTwoDiffer(store: seq<Datatype>, a: Args, h: nat, h': nat, b: nat, d: int, base: Datatype, t: Datatype)
    requires OneAndTwo(store, a, h, h', b, d) && base == Add(EMPTY, store[h], 1, 0, Extent(store[h])) && t == store[h']
    requires Differs(base, t, b, d)
    ensures MergedMembers(store, a, 3) != SeparateMembers(store, a, 3)
  {
    OneAndTwoMerged(store, a, h, h', b, d, base);
    OneAndTwoSeparate(store, a, h, h', b, d, base, t);
  }

  /** Two types that clash, the second one not aligned. */
  lemma BothDiffer(store: seq<Datatype>, h: nat, h': nat) returns (a: Args)
    requires h < |store| && h' < |store| && Bounded(store[h]) && Clash(store[h], store[h'])
    requires Extent(store[h]) >= 0 && store[h'].align <= 1
    ensures ValidArgs(store, a) && !AllZero(a.lengths) && MergedMembers(store, a, |a.types|) != SeparateMembers(store, a, |a.types|)
  {
    var s, t := store[h], store[h'];
    var base := Add(EMPTY, s, 1, 0, Extent(s));
    AlignedBase(s, base);
    var b: nat, d := Differing(base, t);
    a := Args([h, h', h'], [1, 1, b], [0, d, d + Extent(t)]);
    assert a.lengths[0] == 1 && OneAndTwo(store, a, h, h', b, d);
    OneAndTwoDiffer(store, a, h, h', b, d, base, t);
  }

  // ----------------------------------------------------------------------- the constructor

  /** What the constructor makes. */
  function Struct(store: seq<Datatype>, a: Args): Datatype
    requires ValidArgs(store, a)
  {
    if AllZero(a.lengths) then NULL_COPY else MergedMembers(store, a, |a.types|)
  }

  function StructOneByOne(store: seq<Datatype>, a: Args): Datatype
    requires ValidArgs(store, a)
  {
    if AllZero(a.lengths) then NULL_COPY else SeparateMembers(store, a, |a.types|)
  }

  ghost predicate StructSame(store: seq<Datatype>, a: Args) {
    ValidArgs(store, a) ==> Struct(store, a) == StructOneByOne(store, a)
  }

  lemma UsedGentle(store: seq<Datatype>, a: Args)
    requires ValidArgs(store, a) && Gentle(store)
    ensures Gentle(Used(store, a))
  {
  }

  /** Structs of types from the store are the same merged or one by one, for all blocks,
      exactly when no two of the types clash. */
  lemma StructIffGentle(store: seq<Datatype>)
    requires forall i :: 0 <= i < |store| ==> Bounded(store[i])
    ensures (forall a :: StructSame(store, a)) <==> Gentle(store)
  {
    if Gentle(store) {
      forall a
        ensures StructSame(store, a)
      {
        if ValidArgs(store, a) {
          UsedGentle(store, a);
          MergedIsSeparateMembers(store, a, |a.types|);
        }
      }
    } else {
      var h: nat, h': nat :| h < |store| && h' < |store| && Clash(store[h], store[h']);
      var a;
      if store[h'].align > 1 {
        a := AloneDiffers(store, h');
      } else if Extent(store[h]) < 0 {
        a := AloneDiffers(store, h);
      } else {
        a := BothDiffer(store, h, h');
      }
      assert !StructSame(store, a);
    }
  }
}
