/** The vector, indexed and struct constructors (ompi/datatype/ompi_datatype_create_*.c):
    their shortcuts and run merging against the type maps that section 4.1.2 of
    MPI-3.1 defines. */
module TypeConstructors {
  import opened Basics
  import opened Typemap
  import opened Merging
  import opened StructMerging
  import opened VectorBounds

  // --------------------------------------------------------- contiguous and vector

  /** ompi_datatype_create_contiguous. */
  method CreateContiguous(count: nat, elem: Datatype) returns (r: Datatype)
    ensures r.entries == Copies(elem.entries, count, 0, Extent(elem))
    ensures if count == 0 || elem.entries == [] then r == NULL_COPY else Bounded(elem) ==> Framed(r, elem, 1, count, 0)
  {
    CopiesOfNothing(count, 0, Extent(elem));
    if count == 0 || elem.entries == [] {
      return NULL_COPY;
    }
    if Bounded(elem) {
      ContiguousFramed(elem, 1, count, 0);
    }
    r := Add(EMPTY, elem, count, 0, Extent(elem));
  }

  /** `count` rows of `blocklength` elements, each row `stride` bytes after the last. */
  function Rows(elem: Datatype, count: nat, blocklength: nat, stride: int): seq<Entry> {
    Copies(Copies(elem.entries, blocklength, 0, Extent(elem)), count, 0, stride)
  }

  lemma {:induction false} RowsAreCopies(m: seq<Entry>, count: nat, blocklength: nat, d: int, e: int)
    ensures Copies(Copies(m, blocklength, 0, e), count, d, blocklength * e) == Copies(m, count * blocklength, d, e)
  {
    if count > 0 {
      var row := Copies(m, blocklength, 0, e);
      RowsAreCopies(m, count - 1, blocklength, d + blocklength * e, e);
      CopiesShift(m, blocklength, 0, e, d);
      CopiesSplit(m, blocklength, (count - 1) * blocklength, d, e);
      Distribute(1, count - 1, blocklength);
    }
  }

  /** The type that the stride counts from row to row. */
  function Row(elem: Datatype, blocklength: nat): Datatype {
    if blocklength == 1 then elem else Add(EMPTY, elem, blocklength, 0, Extent(elem))
  }

  /** A row stride of -1 byte is taken for the default extent of a row. */
  predicate Misread(elem: Datatype, count: nat, blocklength: nat, stride: int) {
    && count >= 2 && blocklength >= 1 && elem.entries != []
    && stride == -1 && Extent(Row(elem, blocklength)) != -1
  }

  /** Two 4-byte integers one byte apart, backwards: the second is placed 4 bytes after the first. */
  lemma MinusOneByteIsMisread()
    ensures var int4 := Datatype([Entry(0, 0)], 0, 4, false, false, 4);
            Misread(int4, 2, 1, -1) && Rows(int4, 2, 1, -1) == [Entry(0, 0), Entry(0, -1)]
  {
    var int4 := Datatype([Entry(0, 0)], 0, 4, false, false, 4);
    assert Copies(int4.entries, 1, 0, 4) == Shift(int4.entries, 0) + Copies(int4.entries, 0, 4, 4) == int4.entries;
    assert Copies(int4.entries, 2, 0, -1) == Shift(int4.entries, 0) + Copies(int4.entries, 1, -1, -1);
    assert Copies(int4.entries, 1, -1, -1) == Shift(int4.entries, -1) + Copies(int4.entries, 0, -2, -1);
  }

  lemma CopiesDiffer(m: seq<Entry>, n: nat, e: int, e': int)
    requires m != [] && n >= 2 && e != e'
    ensures Copies(m, n, 0, e) != Copies(m, n, 0, e')
  {
    CopiesSecond(m, n, e);
    CopiesSecond(m, n, e');
  }

  lemma CopiesSecond(m: seq<Entry>, n: nat, e: int)
    requires m != [] && n >= 2
    ensures |Copies(m, n, 0, e)| > |m| && Copies(m, n, 0, e)[|m|].disp == m[0].disp + e
  {
    assert Copies(m, n, 0, e) == Shift(m, 0) + (Shift(m, e) + Copies(m, n - 2, e + e, e));
  }

  lemma {:induction false} CopiesLength(m: seq<Entry>, n: nat, d: int, e: int, d': int, e': int)
    ensures |Copies(m, n, d, e)| == |Copies(m, n, d', e')|
    decreases n
  {
    if n > 0 {
      CopiesLength(m, n - 1, d + e, e, d' + e', e');
    }
  }

  /** What the branch without the contiguous shortcut builds. */
  lemma StridedRows(elem: Datatype, count: nat, blocklength: nat, stride: int)
    requires count >= 2 && blocklength >= 1
    ensures var step := if stride == -1 then Extent(Row(elem, blocklength)) else stride;
            Copies(Row(elem, blocklength).entries, count, 0, step) == Rows(elem, count, blocklength, stride)
            <==> !Misread(elem, count, blocklength, stride)
    ensures Row(elem, blocklength).entries == Copies(elem.entries, blocklength, 0, Extent(elem))
  {
    var row := Row(elem, blocklength);
    var m := Copies(elem.entries, blocklength, 0, Extent(elem));
    if blocklength == 1 {
      CopiesOne(elem.entries, 0, Extent(elem));
      ShiftZero(elem.entries);
    }
    assert row.entries == m;
    if elem.entries == [] {
      CopiesOfNothing(blocklength, 0, Extent(elem));
      CopiesOfNothing(count, 0, stride);
      CopiesOfNothing(count, 0, Extent(row));
    } else if stride == -1 && Extent(row) != -1 {
      assert m == Shift(elem.entries, 0) + Copies(elem.entries, blocklength - 1, Extent(elem), Extent(elem));
      CopiesDiffer(m, count, Extent(row), -1);
    }
  }

  /** The contiguous shortcut. */
  lemma ContiguousRows(elem: Datatype, count: nat, blocklength: nat, stride: int)
    requires blocklength * Extent(elem) == stride || count == 1
    ensures Copies(elem.entries, count * blocklength, 0, Extent(elem)) == Rows(elem, count, blocklength, stride)
  {
    RowsAreCopies(elem.entries, count, blocklength, 0, Extent(elem));
    if count == 1 {
      CopiesOne(Copies(elem.entries, blocklength, 0, Extent(elem)), 0, stride);
      CopiesOne(Copies(elem.entries, blocklength, 0, Extent(elem)), 0, blocklength * Extent(elem));
    }
  }

  /** The branch of both constructors for contiguous rows. */
  method AddContiguous(count: nat, blocklength: nat, stride: int, elem: Datatype) returns (r: Datatype)
    requires count >= 1 && blocklength >= 1 && (blocklength * Extent(elem) == stride || count == 1)
    ensures r.entries == Rows(elem, count, blocklength, stride)
    ensures count == 1 && blocklength == 1 ==> r == Add(EMPTY, elem, 1, 0, Extent(elem))
    ensures Bounded(elem) ==> Framed(r, elem, count, blocklength, stride)
  {
    MultipleBelow(1, count, blocklength);
    r := AddElements(count * blocklength, elem);
    ContiguousRows(elem, count, blocklength, stride);
    if Bounded(elem) {
      ContiguousFramed(elem, count, blocklength, stride);
    }
  }

  method AddElements(n: nat, elem: Datatype) returns (r: Datatype)
    requires n >= 1
    ensures r == Add(EMPTY, elem, n, 0, Extent(elem)) && r.entries == Copies(elem.entries, n, 0, Extent(elem))
  {
    r := Add(EMPTY, elem, n, 0, Extent(elem));
  }

  lemma StridedFramed(elem: Datatype, count: nat, blocklength: nat, stride: int)
    requires count >= 2 && blocklength >= 1 && (Extent(elem) == 0 || blocklength * Extent(elem) != stride) && Bounded(elem)
    ensures Framed(Add(EMPTY, Row(elem, blocklength), count, 0, stride), elem, count, blocklength, stride)
  {
    if blocklength == 1 {
      SinglesFramed(elem, count, stride);
    } else {
      RowsFramed(elem, count, blocklength, stride);
    }
  }

  /** The branch of both constructors for rows that are apart. */
  method AddStrided(count: nat, blocklength: nat, stride: int, elem: Datatype) returns (r: Datatype)
    requires count >= 2 && blocklength >= 1 && (Extent(elem) == 0 || blocklength * Extent(elem) != stride)
    ensures r.entries == Rows(elem, count, blocklength, stride) <==> !Misread(elem, count, blocklength, stride)
    ensures |r.entries| == |Rows(elem, count, blocklength, stride)|
    ensures Bounded(elem) ==> Framed(r, elem, count, blocklength, stride)
  {
    StridedRows(elem, count, blocklength, stride);
    var row := Row(elem, blocklength);
    if Bounded(elem) {
      StridedFramed(elem, count, blocklength, stride);
    }
    CopiesLength(row.entries, count, 0, if stride == -1 then Extent(row) else stride, 0, stride);
    r := AddRows(row, count, stride);
  }

  method AddRows(row: Datatype, count: nat, stride: int) returns (r: Datatype)
    requires count >= 1
    ensures r == Add(EMPTY, row, count, 0, stride)
    ensures r.entries == Copies(row.entries, count, 0, if stride == -1 then Extent(row) else stride)
  {
    r := Add(EMPTY, row, count, 0, stride);
  }

  /** ompi_datatype_create_hvector: it builds the rows exactly when it does not misread the stride. */
  method CreateHvector(count: nat, blocklength: nat, stride: int, elem: Datatype) returns (r: Datatype)
    ensures r.entries == Rows(elem, count, blocklength, stride) <==> !Misread(elem, count, blocklength, stride)
    ensures |r.entries| == |Rows(elem, count, blocklength, stride)|
    ensures count == 1 && blocklength == 1 ==> r == Add(EMPTY, elem, 1, 0, Extent(elem))
    ensures if count == 0 || blocklength == 0 then r == NULL_COPY
            else Bounded(elem) ==> Framed(r, elem, count, blocklength, stride)
  {
    if count == 0 || blocklength == 0 {
      CopiesOfNothing(count, 0, stride);
      return NULL_COPY;
    }
    if Extent(elem) * blocklength == stride || 1 >= count {
      r := AddContiguous(count, blocklength, stride, elem);
    } else {
      r := AddStrided(count, blocklength, stride, elem);
    }
  }

  /** ompi_datatype_create_vector: the stride counts elements. */
  method CreateVector(count: nat, blocklength: nat, stride: int, elem: Datatype) returns (r: Datatype)
    ensures r.entries == Rows(elem, count, blocklength, Extent(elem) * stride)
            <==> !Misread(elem, count, blocklength, Extent(elem) * stride)
    ensures count == 1 && blocklength == 1 ==> r == Add(EMPTY, elem, 1, 0, Extent(elem))
    ensures if count == 0 || blocklength == 0 then r == NULL_COPY
            else Bounded(elem) ==> Framed(r, elem, count, blocklength, Extent(elem) * stride)
  {
    var extent := Extent(elem);
    if count == 0 || blocklength == 0 {
      CopiesOfNothing(count, 0, extent * stride);
      return NULL_COPY;
    }
    if blocklength == stride || 1 >= count {
      r := AddContiguous(count, blocklength, extent * stride, elem);
    } else {
      StrideDiffers(extent, blocklength, stride);
      r := AddStrided(count, blocklength, extent * stride, elem);
    }
  }

  lemma StrideDiffers(e: int, blocklength: nat, stride: int)
    requires blocklength != stride
    ensures e == 0 || blocklength * e != e * stride
  {
    Distribute(blocklength, -stride, e);
  }

  lemma RowsOfOne(elem: Datatype, n: nat, s: int)
    ensures Rows(elem, n, 1, s) == Copies(elem.entries, n, 0, s)
  {
    CopiesOne(elem.entries, 0, Extent(elem));
    ShiftZero(elem.entries);
  }

  // ------------------------------------------------------------------------ indexed

  /** ompi_datatype_create_indexed: displacements count elements. */
  method CreateIndexed(lengths: seq<nat>, disps: seq<int>, elem: Datatype) returns (r: Datatype)
    requires |lengths| == |disps|
    ensures r == Indexed(elem, lengths, disps, Extent(elem), 1)
    ensures r.entries == Blocks(elem, lengths, disps, Extent(elem), |lengths|)
  {
    var count, i, extent := |lengths|, 0, Extent(elem);
    while i < count && lengths[i] == 0
      invariant 0 <= i <= count && forall j :: 0 <= j < i ==> lengths[j] == 0
    {
      i := i + 1;
    }
    if i == count || elem.entries == [] {
      BlocksOfNothing(elem, lengths, disps, extent, count);
      return NULL_COPY;
    }
    var disp, endat := disps[i], disps[i] + lengths[i];
    var length: nat := lengths[i];
    var pdt := EMPTY;
    RunsOfNothing(elem, lengths, disps, extent, 1, i);
    i := i + 1;
    while i < count
      invariant 1 <= i <= count && pdt.align > 0 && length > 0 && endat == disp + length
      invariant Run(pdt, length, disp) == Runs(elem, lengths, disps, extent, 1, i)
    {
      if lengths[i] != 0 {
        if endat == disps[i] {
          length := length + lengths[i];
          endat := endat + lengths[i];
        } else {
          pdt := Add(pdt, elem, length, disp * extent, extent);
          disp, length, endat := disps[i], lengths[i], disps[i] + lengths[i];
        }
      }
      i := i + 1;
    }
    r := Add(pdt, elem, length, disp * extent, extent);
    MergedEntries(elem, lengths, disps, extent, 1, count);
  }

  /** ompi_datatype_create_hindexed: displacements count bytes. */
  method CreateHindexed(lengths: seq<nat>, disps: seq<int>, elem: Datatype) returns (r: Datatype)
    requires |lengths| == |disps|
    ensures r == Indexed(elem, lengths, disps, 1, Extent(elem))
    ensures r.entries == Blocks(elem, lengths, disps, 1, |lengths|)
  {
    var count, i, extent := |lengths|, 0, Extent(elem);
    while i < count && lengths[i] == 0
      invariant 0 <= i <= count && forall j :: 0 <= j < i ==> lengths[j] == 0
    {
      i := i + 1;
    }
    if i == count || elem.entries == [] {
      BlocksOfNothing(elem, lengths, disps, 1, count);
      return NULL_COPY;
    }
    var disp, endat := disps[i], disps[i] + lengths[i] * extent;
    var length: nat := lengths[i];
    var pdt := EMPTY;
    RunsOfNothing(elem, lengths, disps, 1, extent, i);
    i := i + 1;
    while i < count
      invariant 1 <= i <= count && pdt.align > 0 && length > 0 && endat == disp + length * extent
      invariant Run(pdt, length, disp) == Runs(elem, lengths, disps, 1, extent, i)
    {
      if lengths[i] != 0 {
        if endat == disps[i] {
          endat := endat + lengths[i] * extent;
          assert endat == disp + (length + lengths[i]) * extent by {
            Distribute(length, lengths[i], extent);
          }
          length := length + lengths[i];
        } else {
          pdt := Add(pdt, elem, length, disp, extent);
          disp, length, endat := disps[i], lengths[i], disps[i] + lengths[i] * extent;
        }
      }
      i := i + 1;
    }
    r := Add(pdt, elem, length, disp, extent);
    MergedEntries(elem, lengths, disps, 1, extent, count);
  }

  /** ompi_datatype_create_indexed_block. */
  method CreateIndexedBlock(blocklength: nat, disps: seq<int>, elem: Datatype) returns (r: Datatype)
    ensures r == IndexedBlock(elem, blocklength, disps, Extent(elem), 1)
    ensures r.entries == Blocks(elem, Same(|disps|, blocklength), disps, Extent(elem), |disps|)
  {
    var count, extent := |disps|, Extent(elem);
    ghost var lengths := Same(|disps|, blocklength);
    if count == 0 || blocklength == 0 {
      BlocksOfNothing(elem, lengths, disps, extent, count);
      return NULL_COPY;
    }
    var pdt, disp, endat, i := EMPTY, disps[0], disps[0] + blocklength, 1;
    var length: nat := blocklength;
    RunsOfNothing(elem, lengths, disps, extent, 1, 0);
    while i < count
      invariant 1 <= i <= count && pdt.align > 0 && length > 0 && endat == disp + length
      invariant Run(pdt, length, disp) == Runs(elem, lengths, disps, extent, 1, i)
    {
      if endat == disps[i] {
        length := length + blocklength;
        endat := endat + blocklength;
      } else {
        pdt := Add(pdt, elem, length, disp * extent, extent);
        disp, length, endat := disps[i], blocklength, disps[i] + blocklength;
      }
      i := i + 1;
    }
    r := Add(pdt, elem, length, disp * extent, extent);
    MergedEntries(elem, lengths, disps, extent, 1, count);
  }

  /** ompi_datatype_create_hindexed_block. */
  method CreateHindexedBlock(blocklength: nat, disps: seq<int>, elem: Datatype) returns (r: Datatype)
    ensures r == IndexedBlock(elem, blocklength, disps, 1, Extent(elem))
    ensures r.entries == Blocks(elem, Same(|disps|, blocklength), disps, 1, |disps|)
  {
    var count, extent := |disps|, Extent(elem);
    ghost var lengths := Same(|disps|, blocklength);
    if count == 0 || blocklength == 0 {
      BlocksOfNothing(elem, lengths, disps, 1, count);
      return NULL_COPY;
    }
    var pdt, disp, endat, i := EMPTY, disps[0], disps[0] + blocklength * extent, 1;
    var length: nat := blocklength;
    RunsOfNothing(elem, lengths, disps, 1, extent, 0);
    while i < count
      invariant 1 <= i <= count && pdt.align > 0 && length > 0 && endat == disp + length * extent
      invariant Run(pdt, length, disp) == Runs(elem, lengths, disps, 1, extent, i)
    {
      if endat == disps[i] {
        endat := endat + blocklength * extent;
        assert endat == disp + (length + blocklength) * extent by {
          Distribute(length, blocklength, extent);
        }
        length := length + blocklength;
      } else {
        pdt := Add(pdt, elem, length, disp, extent);
        disp, length, endat := disps[i], blocklength, disps[i] + blocklength * extent;
      }
      i := i + 1;
    }
    r := Add(pdt, elem, length, disp, extent);
    MergedEntries(elem, lengths, disps, 1, extent, count);
  }

  /** Two integers resized to be one byte long, backwards: hindexed merges them and gives
      them an upper bound of -1, one by one they have 7. */
  method MergedWithoutPadding() returns (r: Datatype, lengths: seq<nat>, disps: seq<int>)
    ensures lengths == [1, 1] && disps == [0, -1] && r == Indexed(BACKWARDS, lengths, disps, 1, Extent(BACKWARDS))
    ensures r.ub == -1 && IndexedOneByOne(BACKWARDS, lengths, disps, 1).ub == 7
  {
    lengths, disps := [1, 1], [0, -1];
    r := CreateHindexed(lengths, disps, BACKWARDS);
    BackwardsPair(BACKWARDS, lengths, disps);
  }

  // ------------------------------------------------------------------------- struct

  lemma StructIsRight(store: seq<Datatype>, a: Args)
    requires ValidArgs(store, a) && !AllZero(a.lengths)
    ensures Struct(store, a).entries == Members(store, a, |a.types|)
    ensures Gentle(Used(store, a)) ==> Struct(store, a) == StructOneByOne(store, a)
  {
    MergedMemberEntries(store, a, |a.types|);
    if Gentle(Used(store, a)) {
      MergedIsSeparateMembers(store, a, |a.types|);
    }
  }

  /** ompi_datatype_create_struct: blocks of the same type handle are merged when
      one starts where the other ends. */
  method CreateStruct(store: seq<Datatype>, a: Args) returns (r: Datatype)
    requires ValidArgs(store, a)
    ensures r == Struct(store, a) && (AllZero(a.lengths) ==> r == NULL_COPY)
    ensures r.entries == Members(store, a, |a.types|)
    ensures Gentle(Used(store, a)) ==> r == StructOneByOne(store, a)
  {
    var count, i := |a.types|, 0;
    while i < count && a.lengths[i] == 0
      invariant 0 <= i <= count && forall j :: 0 <= j < i ==> a.lengths[j] == 0
    {
      i := i + 1;
    }
    if i == count {
      StillWaiting(store, a, count);
      return NULL_COPY;
    }
    var last, disp := a.types[i], a.disps[i];
    var length: nat := a.lengths[i];
    var extent := Extent(store[last]);
    var endto := disp + extent * length;
    var pdt := EMPTY;
    StillWaiting(store, a, i);
    i := i + 1;
    while i < count
      invariant 1 <= i <= count && pdt.align > 0 && last < |store| && extent == Extent(store[last]) && endto == disp + extent * length
      invariant Running(pdt, last, length, disp) == States(store, a, i)
    {
      if a.types[i] == last && a.disps[i] == endto {
        length := length + a.lengths[i];
        endto := disp + length * extent;
      } else {
        pdt := Add(pdt, store[last], length, disp, extent);
        last, length, disp := a.types[i], a.lengths[i], a.disps[i];
        extent := Extent(store[last]);
        endto := disp + extent * length;
      }
      i := i + 1;
    }
    r := Add(pdt, store[last], length, disp, extent);
    StructIsRight(store, a);
  }
}
